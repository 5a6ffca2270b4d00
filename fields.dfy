/**
 * The parts of Field and FieldBearer the core touches. Field itself is
 * external: only its name, label text, prefix and suffix lists, initial value and
 * error list are modelled, and addSuffix, addPrefix and setInitial as the
 * updates they make to them.
 */
module Fields {

  datatype Field = Field(
    name: string,
    labelText: string,
    prefixes: seq<string>,
    suffixes: seq<string>,
    initial: string,
    errors: seq<string>)
  {
    function AddSuffix(s: string): Field {
      this.(suffixes := suffixes + [s])
    }

    function AddPrefix(p: string): Field {
      this.(prefixes := prefixes + [p])
    }

    function SetInitial(v: string): Field {
      this.(initial := v)
    }
  }

  /** A field bearer: nested field bearers and its own fields, in insertion order. */
  datatype FieldBearer = FieldBearer(bearers: seq<FieldBearer>, fields: seq<Field>)
}
