/**
 * TableForm: a form whose rows are rebuilt from the submitted POST data.
 * Validation finds the submitted keys containing the slug of the prototype
 * row's first field, strips that slug from each to get a row prefix, builds
 * one row per prefix with renamed fields, runs each field's own validation
 * and then the external validators registered under its name, and marks the
 * form invalid with one generic error per row holding an invalid field. The
 * result is memoised: validation runs on the first isValid call only.
 *
 * Field's getSlug, validate and isValid, the row builder and the validators
 * are external; they are parameters of the model.
 */
module TableForms {
  import opened Wrappers
  import opened Strings
  import opened Fields
  import opened Rows
  import Filters

  const InvalidFormMessage: string := "Please correct the indicated errors and resubmit the form."

  /** $_POST: its keys in submission order and the value under each key. */
  datatype PostData = PostData(keys: seq<string>, values: map<string, string>)
  {
    /** array_keys($_POST): every key once, and exactly the keys holding a value. */
    predicate WellFormed() {
      Distinct(keys) && (forall k :: k in keys ==> k in values) && (forall k :: k in values ==> k in keys)
    }
  }

  predicate Distinct<T(==)>(s: seq<T>) {
    forall i, j :: 0 <= i < j < |s| ==> s[i] != s[j]
  }

  /** Field::getSlug, Field::validate and Field::isValid. */
  datatype FieldBehaviour = FieldBehaviour(slug: Field -> string, validate: Field -> Field, isValid: Field -> bool)

  /** An external validator, as its effect on the field it is given. */
  type Validator = Field -> Field

  /** array_filter over the POST keys: those containing slug, in order. */
  function MatchingKeys(keys: seq<string>, slug: string): (r: seq<string>)
    ensures |r| <= |keys|
    ensures forall key :: key in r <==> key in keys && Contains(key, slug)
    decreases |keys|
  {
    if keys == [] then []
    else
      var last := keys[|keys| - 1];
      MatchingKeys(keys[..|keys| - 1], slug) + (if Contains(last, slug) then [last] else [])
  }

  /** array_map over the matches: each with every occurrence of slug removed. */
  function RowPrefixes(keys: seq<string>, slug: string): seq<string> {
    var m := MatchingKeys(keys, slug);
    seq(|m|, i requires 0 <= i < |m| => RemoveAll(m[i], slug))
  }

  /** The new field's name parts: the prototype's suffixes joined by "-", then the trimmed prefix. */
  function RenamedField(proto: Field, prefix: string): Field {
    proto.AddSuffix(Join("-", proto.suffixes)).AddPrefix(Trim(prefix, '-'))
  }

  /** A rebuilt field: renamed, given its submitted value when POST has one, then validated by itself. */
  function RebuiltField(proto: Field, prefix: string, post: PostData, behaviour: FieldBehaviour): Field {
    var f := RenamedField(proto, prefix);
    var slug := behaviour.slug(f);
    behaviour.validate(if slug in post.values then f.SetInitial(post.values[slug]) else f)
  }

  function WithFields(row: Row, fields: seq<Field>): Row {
    row.(fieldBearer := row.fieldBearer.(fields := fields))
  }

  function FieldsOf(row: Row): seq<Field> {
    row.fieldBearer.fields
  }

  /** One freshly built row for a prefix. */
  function BuiltRow(prototype: Row, prefix: string, post: PostData, behaviour: FieldBehaviour): Row {
    var fs := FieldsOf(prototype);
    WithFields(prototype, seq(|fs|, k requires 0 <= k < |fs| => RebuiltField(fs[k], prefix, post, behaviour)))
  }

  /** The slug every submitted row key is matched against. */
  function FirstSlug(prototype: Row, behaviour: FieldBehaviour): string
    requires |FieldsOf(prototype)| > 0
  {
    behaviour.slug(FieldsOf(prototype)[0])
  }

  /** The rows rebuilt from POST, before the external validators run. */
  function BuiltRows(prototype: Row, post: PostData, behaviour: FieldBehaviour): seq<Row>
    requires |FieldsOf(prototype)| > 0
  {
    var ps := RowPrefixes(post.keys, FirstSlug(prototype, behaviour));
    seq(|ps|, i requires 0 <= i < |ps| => BuiltRow(prototype, ps[i], post, behaviour))
  }

  /** The validators run on a field, first to last. */
  function RunValidators(f: Field, vs: seq<Validator>): Field
    decreases |vs|
  {
    if vs == [] then f else vs[|vs| - 1](RunValidators(f, vs[..|vs| - 1]))
  }

  /** A field after the validators registered under its name; none when its name is not registered. */
  function ExternallyValidated(f: Field, validators: map<string, seq<Validator>>): Field {
    if f.name in validators then RunValidators(f, validators[f.name]) else f
  }

  function CheckedRow(row: Row, validators: map<string, seq<Validator>>): Row {
    var fs := FieldsOf(row);
    WithFields(row, seq(|fs|, k requires 0 <= k < |fs| => ExternallyValidated(fs[k], validators)))
  }

  /** Every built row after the validators of its fields. */
  function CheckedRows(built: seq<Row>, validators: map<string, seq<Validator>>): seq<Row> {
    seq(|built|, i requires 0 <= i < |built| => CheckedRow(built[i], validators))
  }

  /** The rows a validation ends with. */
  function ValidatedRows(prototype: Row, post: PostData, behaviour: FieldBehaviour, validators: map<string, seq<Validator>>): seq<Row>
    requires |FieldsOf(prototype)| > 0
  {
    CheckedRows(BuiltRows(prototype, post, behaviour), validators)
  }

  predicate RowIsValid(row: Row, behaviour: FieldBehaviour) {
    forall k :: 0 <= k < |FieldsOf(row)| ==> behaviour.isValid(FieldsOf(row)[k])
  }

  /** Number of rows holding at least one invalid field. */
  function InvalidRowCount(rows: seq<Row>, behaviour: FieldBehaviour): nat
    decreases |rows|
  {
    if rows == [] then 0
    else InvalidRowCount(rows[..|rows| - 1], behaviour) + (if RowIsValid(rows[|rows| - 1], behaviour) then 0 else 1)
  }

  /** Counting the rows up to i, inclusive. */
  lemma InvalidRowCountStep(rows: seq<Row>, i: nat, behaviour: FieldBehaviour)
    requires i < |rows|
    ensures InvalidRowCount(rows[..i + 1], behaviour) ==
      InvalidRowCount(rows[..i], behaviour) + (if RowIsValid(rows[i], behaviour) then 0 else 1)
  {
    assert rows[..i + 1][..i] == rows[..i];
  }

  /** One more generic error message appended to a list of them. */
  lemma OneMoreMessage(errors: seq<string>, n: nat)
    ensures errors + Run(InvalidFormMessage, n) + [InvalidFormMessage] == errors + Run(InvalidFormMessage, n + 1)
  {
    assert Run(InvalidFormMessage, n) + [InvalidFormMessage] == Run(InvalidFormMessage, n + 1);
  }

  /**
   * The last pass of validate: for each row, the first invalid field clears
   * validity and adds one generic error, and the rest of the row is skipped.
   */
  method FlagInvalidRows(rows: seq<Row>, behaviour: FieldBehaviour, errors: seq<string>) returns (valid: bool, errs: seq<string>)
    ensures valid == (InvalidRowCount(rows, behaviour) == 0)
    ensures errs == errors + Run(InvalidFormMessage, InvalidRowCount(rows, behaviour))
  {
    valid := true;
    errs := errors;
    for i := 0 to |rows|
      invariant valid == (InvalidRowCount(rows[..i], behaviour) == 0)
      invariant errs == errors + Run(InvalidFormMessage, InvalidRowCount(rows[..i], behaviour))
    {
      InvalidRowCountStep(rows, i, behaviour);
      OneMoreMessage(errors, InvalidRowCount(rows[..i], behaviour));
      var fields := FieldsOf(rows[i]);
      var k := 0;
      while k < |fields|
        invariant 0 <= k <= |fields|
        invariant forall j :: 0 <= j < k ==> behaviour.isValid(fields[j])
      {
        if !behaviour.isValid(fields[k]) {
          valid := false;
          errs := errs + [InvalidFormMessage];
          break;
        }
        k := k + 1;
      }
    }
    assert rows[..|rows|] == rows;
  }

  class TableForm {
    /** What the row builder builds: every build is a fresh copy of it. */
    const prototype: Row
    const validators: map<string, seq<Validator>>
    const behaviour: FieldBehaviour
    /** _isValid: None until validation has run. */
    var validity: Option<bool>
    var rows: seq<Row>
    var errors: seq<string>

    constructor (prototype: Row, validators: map<string, seq<Validator>>, behaviour: FieldBehaviour)
      ensures this.prototype == prototype && this.validators == validators && this.behaviour == behaviour
      ensures validity == None && rows == [] && errors == []
    {
      this.prototype := prototype;
      this.validators := validators;
      this.behaviour := behaviour;
      validity := None;
      rows := [];
      errors := [];
    }

    /** getErrors: the error list, in the order the errors were added. */
    function GetErrors(): (r: seq<string>)
      reads this
      ensures |r| == |errors| && forall i :: 0 <= i < |r| ==> r[i] == errors[i]
    {
      errors
    }

    /** addError: the error goes to the end of the list and nothing else changes. */
    method AddError(error: string)
      modifies this
      ensures errors == old(errors) + [error]
      ensures GetErrors() == old(GetErrors()) + [error]
      ensures validity == old(validity) && rows == old(rows)
    {
      errors := errors + [error];
    }

    /** getFilter: always a fresh sentinel filter. */
    method GetFilter() returns (f: Filters.Filter)
      ensures fresh(f) && f.Valid() && f.sentinel && f.GetNextFilter() == null && f.States() == []
    {
      f := new Filters.Filter.Dummy();
    }

    /** getSubForms: a table form has no sub-forms. */
    function GetSubForms(): (subForms: seq<TableForm>)
      ensures |subForms| == 0
    {
      []
    }

    /** validate: rebuild the rows from POST, run the validators, record validity and errors. */
    method Validate(post: PostData)
      requires |FieldsOf(prototype)| > 0 && post.WellFormed()
      modifies this
      ensures rows == ValidatedRows(prototype, post, behaviour, validators)
      ensures validity == Some(InvalidRowCount(rows, behaviour) == 0)
      ensures errors == old(errors) + Run(InvalidFormMessage, InvalidRowCount(rows, behaviour))
    {
      var built := BuildRows(prototype, post, behaviour);
      var checked := CheckRows(built, validators);
      assert checked == CheckedRows(built, validators);
      var valid, errs := FlagInvalidRows(checked, behaviour, errors);
      rows := checked;
      validity := Some(valid);
      errors := errs;
    }

    /** isValid: validates on the first call only; later calls return the cached answer. */
    method IsValid(post: PostData) returns (valid: bool)
      requires validity.None? ==> |FieldsOf(prototype)| > 0 && post.WellFormed()
      modifies this
      ensures validity == Some(valid)
      ensures old(validity).Some? ==> valid == old(validity).value && unchanged(this)
      ensures old(validity).None? ==>
        rows == ValidatedRows(prototype, post, behaviour, validators) &&
        valid == (InvalidRowCount(rows, behaviour) == 0) &&
        errors == old(errors) + Run(InvalidFormMessage, InvalidRowCount(rows, behaviour))
    {
      if validity.None? {
        Validate(post);
      }
      valid := validity.value;
    }
  }

  /** The row prefixes, one per POST key containing slug, in submission order. */
  method CollectRowPrefixes(keys: seq<string>, slug: string) returns (prefixes: seq<string>)
    ensures prefixes == RowPrefixes(keys, slug)
  {
    var matches: seq<string> := [];
    for i := 0 to |keys|
      invariant matches == MatchingKeys(keys[..i], slug)
    {
      assert keys[..i + 1][..i] == keys[..i];
      if Contains(keys[i], slug) {
        matches := matches + [keys[i]];
      }
    }
    assert keys[..|keys|] == keys;
    prefixes := [];
    for i := 0 to |matches|
      invariant prefixes == seq(i, j requires 0 <= j < i => RemoveAll(matches[j], slug))
    {
      prefixes := prefixes + [RemoveAll(matches[i], slug)];
    }
  }

  /** Rebuilds one row per row prefix found in POST, in POST order. */
  method BuildRows(prototype: Row, post: PostData, behaviour: FieldBehaviour) returns (built: seq<Row>)
    requires |FieldsOf(prototype)| > 0
    ensures built == BuiltRows(prototype, post, behaviour)
  {
    var firstSlug := behaviour.slug(FieldsOf(prototype)[0]);
    var prefixes := CollectRowPrefixes(post.keys, firstSlug);
    built := [];
    for i := 0 to |prefixes|
      invariant built == seq(i, j requires 0 <= j < i => BuiltRow(prototype, prefixes[j], post, behaviour))
    {
      var row := BuildRow(prototype, prefixes[i], post, behaviour);
      built := built + [row];
    }
  }

  /** Builds one row for a prefix: every prototype field renamed, given its POST value and validated. */
  method BuildRow(prototype: Row, prefix: string, post: PostData, behaviour: FieldBehaviour) returns (row: Row)
    ensures row == BuiltRow(prototype, prefix, post, behaviour)
  {
    var protoFields := FieldsOf(prototype);
    var fields: seq<Field> := [];
    for k := 0 to |protoFields|
      invariant fields == seq(k, j requires 0 <= j < k => RebuiltField(protoFields[j], prefix, post, behaviour))
    {
      var field := protoFields[k].AddSuffix(Join("-", protoFields[k].suffixes));
      field := field.AddPrefix(Trim(prefix, '-'));
      var slug := behaviour.slug(field);
      if slug in post.values {
        field := field.SetInitial(post.values[slug]);
      }
      field := behaviour.validate(field);
      fields := fields + [field];
    }
    row := WithFields(prototype, fields);
  }

  /** Runs the external validators over every field of every row. */
  method CheckRows(built: seq<Row>, validators: map<string, seq<Validator>>) returns (rows: seq<Row>)
    ensures |rows| == |built|
    ensures forall i :: 0 <= i < |built| ==> rows[i] == CheckedRow(built[i], validators)
  {
    rows := built;
    for i := 0 to |built|
      invariant |rows| == |built|
      invariant forall j :: 0 <= j < i ==> rows[j] == CheckedRow(built[j], validators)
      invariant forall j :: i <= j < |rows| ==> rows[j] == built[j]
    {
      var fields := FieldsOf(rows[i]);
      for k := 0 to |fields|
        invariant |fields| == |FieldsOf(built[i])|
        invariant forall j :: 0 <= j < k ==> fields[j] == ExternallyValidated(FieldsOf(built[i])[j], validators)
        invariant forall j :: k <= j < |fields| ==> fields[j] == FieldsOf(built[i])[j]
      {
        if fields[k].name in validators {
          var checked := RunFieldValidators(fields[k], validators[fields[k].name]);
          fields := fields[k := checked];
        }
      }
      rows := rows[i := WithFields(rows[i], fields)];
    }
  }

  /** Runs the validators registered for a field, in order. */
  method RunFieldValidators(f: Field, vs: seq<Validator>) returns (g: Field)
    ensures g == RunValidators(f, vs)
  {
    g := f;
    for i := 0 to |vs|
      invariant g == RunValidators(f, vs[..i])
    {
      assert vs[..i + 1][..i] == vs[..i];
      g := vs[i](g);
    }
    assert vs[..|vs|] == vs;
  }

  /** The first validator registered is the first to see the field. */
  lemma {:induction false} ValidatorsRunInOrder(f: Field, v: Validator, vs: seq<Validator>)
    ensures RunValidators(f, [v] + vs) == RunValidators(v(f), vs)
    decreases |vs|
  {
    if vs != [] {
      ValidatorsRunInOrder(f, v, vs[..|vs| - 1]);
      assert ([v] + vs)[..|vs|] == [v] + vs[..|vs| - 1];
    }
  }

  /** A field whose name has no registered validators is left as it is. */
  lemma UnregisteredFieldUnchecked(f: Field, validators: map<string, seq<Validator>>)
    requires f.name !in validators
    ensures ExternallyValidated(f, validators) == f
  {
  }

  /**
   * The form is valid exactly when every field of every row is valid, so a
   * submission without rows is valid; there is one error per row holding an
   * invalid field, so never more errors than rows.
   */
  lemma {:induction false} ValidIffAllFieldsValid(rows: seq<Row>, behaviour: FieldBehaviour)
    ensures InvalidRowCount(rows, behaviour) <= |rows|
    ensures InvalidRowCount(rows, behaviour) == 0 <==>
      forall i, k :: 0 <= i < |rows| && 0 <= k < |FieldsOf(rows[i])| ==> behaviour.isValid(FieldsOf(rows[i])[k])
    decreases |rows|
  {
    if rows != [] {
      var p := rows[..|rows| - 1];
      ValidIffAllFieldsValid(p, behaviour);
      if InvalidRowCount(rows, behaviour) == 0 {
        forall i, k | 0 <= i < |rows| && 0 <= k < |FieldsOf(rows[i])|
          ensures behaviour.isValid(FieldsOf(rows[i])[k])
        {
          if i < |rows| - 1 {
            assert rows[i] == p[i];
          }
        }
      }
      if forall i, k :: 0 <= i < |rows| && 0 <= k < |FieldsOf(rows[i])| ==> behaviour.isValid(FieldsOf(rows[i])[k]) {
        assert RowIsValid(rows[|rows| - 1], behaviour);
        forall i, k | 0 <= i < |p| && 0 <= k < |FieldsOf(p[i])|
          ensures behaviour.isValid(FieldsOf(p[i])[k])
        {
          assert p[i] == rows[i];
        }
      }
    }
  }

  /** The matches of distinct keys are distinct. */
  lemma {:induction false} MatchingKeysDistinct(keys: seq<string>, slug: string)
    requires Distinct(keys)
    ensures Distinct(MatchingKeys(keys, slug))
    decreases |keys|
  {
    if keys != [] {
      var p := keys[..|keys| - 1];
      var last := keys[|keys| - 1];
      assert Distinct(p);
      MatchingKeysDistinct(p, slug);
      assert last !in p;
      assert last !in MatchingKeys(p, slug);
    }
  }

  /** A sequence without repetitions has as many elements as its set. */
  lemma {:induction false} DistinctCardinality(s: seq<string>)
    requires Distinct(s)
    ensures |(set x | x in s)| == |s|
    decreases |s|
  {
    if s != [] {
      var p := s[..|s| - 1];
      assert Distinct(p);
      DistinctCardinality(p);
      assert s[|s| - 1] !in p;
      assert (set x | x in s) == (set x | x in p) + {s[|s| - 1]};
    }
  }

  /**
   * A well-formed submission yields exactly one row for every submitted key
   * containing the first slug.
   */
  lemma RowCountIsMatchingKeyCount(prototype: Row, post: PostData, behaviour: FieldBehaviour, validators: map<string, seq<Validator>>)
    requires |FieldsOf(prototype)| > 0 && post.WellFormed()
    ensures |ValidatedRows(prototype, post, behaviour, validators)| ==
      |(set k | k in post.values && Contains(k, FirstSlug(prototype, behaviour)))|
  {
    var slug := FirstSlug(prototype, behaviour);
    var m := MatchingKeys(post.keys, slug);
    MatchingKeysDistinct(post.keys, slug);
    DistinctCardinality(m);
    assert (set x | x in m) == (set k | k in post.values && Contains(k, slug));
    assert (set k | k in post.values && Contains(k, FirstSlug(prototype, behaviour))) == (set x | x in m);
  }

  /**
   * There is one rebuilt row per POST key containing the first slug, and
   * row i is named after the i-th such key: each of its fields carries that
   * key, with the slug removed and dashes trimmed, as its new prefix, and the
   * prototype field's suffixes joined by "-" as its new suffix.
   */
  lemma ReconstructedRows(prototype: Row, post: PostData, behaviour: FieldBehaviour, i: nat, k: nat)
    requires |FieldsOf(prototype)| > 0
    requires i < |MatchingKeys(post.keys, FirstSlug(prototype, behaviour))|
    requires k < |FieldsOf(prototype)|
    ensures |BuiltRows(prototype, post, behaviour)| == |MatchingKeys(post.keys, FirstSlug(prototype, behaviour))|
    ensures var slug := FirstSlug(prototype, behaviour);
      var proto := FieldsOf(prototype)[k];
      var renamed := proto.(prefixes := proto.prefixes + [Trim(RemoveAll(MatchingKeys(post.keys, slug)[i], slug), '-')],
                            suffixes := proto.suffixes + [Join("-", proto.suffixes)]);
      FieldsOf(BuiltRows(prototype, post, behaviour)[i])[k] ==
        behaviour.validate(if behaviour.slug(renamed) in post.values
                           then renamed.(initial := post.values[behaviour.slug(renamed)])
                           else renamed)
  {
  }
}
