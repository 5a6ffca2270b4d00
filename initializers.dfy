/**
 * Initializer: the visitor run over the writable tree before every render.
 * A page visits its single writable, a section each of its writables, a
 * field bearer its nested bearers and then suffixes its own fields by
 * position, and a form initialises its field bearer and, on a POST request
 * only, checks its validity and runs exactly one of onValid and onInvalid.
 *
 * The tree is a value: each visit returns the updated node. The request
 * method is a parameter, and a form's isValid is an external function of the
 * form and its (already initialised) field bearer.
 */
module Initializers {
  import opened Strings
  import opened Fields

  /** The writable kinds the Initializer distinguishes. */
  datatype Writable =
    | PageNode(pageType: string, title: string, writable: Writable)
    | SectionNode(writables: seq<Writable>)
    | BearerNode(bearer: FieldBearer)
    | FormNode(formId: string, bearer: FieldBearer)
    | Inert(kind: string)  // a writable without InitializableInterface, or an absent one

  /** The observable side effects of visiting a form. */
  datatype Event =
    | CheckedValidity(form: string)
    | RanOnValid(form: string)
    | RanOnInvalid(form: string)

  type Validity = (string, FieldBearer) -> bool

  const Post: string := "POST"

  /** The field at position k receives suffix k. */
  function SuffixFields(fields: seq<Field>): seq<Field> {
    seq(|fields|, k requires 0 <= k < |fields| => fields[k].AddSuffix(Decimal(k)))
  }

  /** visitFieldBearer: nested bearers first, then the bearer's own fields. */
  function InitBearer(b: FieldBearer): FieldBearer
    decreases b
  {
    FieldBearer(seq(|b.bearers|, i requires 0 <= i < |b.bearers| => InitBearer(b.bearers[i])), SuffixFields(b.fields))
  }

  /** What a form does after its bearer is initialised. */
  function FormEvents(id: string, initialised: FieldBearer, requestMethod: string, isValid: Validity): seq<Event> {
    if requestMethod == Post then
      [CheckedValidity(id), if isValid(id, initialised) then RanOnValid(id) else RanOnInvalid(id)]
    else []
  }

  function Flatten(ss: seq<seq<Event>>): seq<Event>
    decreases |ss|
  {
    if ss == [] then [] else Flatten(ss[..|ss| - 1]) + ss[|ss| - 1]
  }

  /** visitChild on a writable: the initialised writable and the events, in traversal order. */
  function Initialize(w: Writable, requestMethod: string, isValid: Validity): (Writable, seq<Event>)
    decreases w
  {
    match w
    case PageNode(t, title, child) =>
      var c := Initialize(child, requestMethod, isValid);
      (PageNode(t, title, c.0), c.1)
    case SectionNode(ws) =>
      var cs := seq(|ws|, i requires 0 <= i < |ws| => Initialize(ws[i], requestMethod, isValid));
      (SectionNode(seq(|ws|, i requires 0 <= i < |ws| => cs[i].0)), Flatten(seq(|ws|, i requires 0 <= i < |ws| => cs[i].1)))
    case BearerNode(b) =>
      (BearerNode(InitBearer(b)), [])
    case FormNode(id, b) =>
      var b' := InitBearer(b);
      (FormNode(id, b'), FormEvents(id, b', requestMethod, isValid))
    case Inert(_) =>
      (w, [])
  }

  /** visitChild: a writable without InitializableInterface is skipped, anything else is dispatched. */
  method VisitChild(child: Writable, requestMethod: string, isValid: Validity) returns (r: Writable, events: seq<Event>)
    ensures (r, events) == Initialize(child, requestMethod, isValid)
    ensures child.Inert? ==> r == child && events == []
    decreases child, 1
  {
    match child
    case PageNode(_, _, _) =>
      r, events := VisitPage(child, requestMethod, isValid);
    case SectionNode(_) =>
      r, events := VisitSection(child, requestMethod, isValid);
    case BearerNode(b) =>
      var b' := VisitFieldBearer(b);
      r, events := BearerNode(b'), [];
    case FormNode(_, _) =>
      r, events := VisitForm(child, requestMethod, isValid);
    case Inert(_) =>
      r, events := child, [];
  }

  /** visitPage: only the page's single writable is visited; the page itself is unchanged. */
  method VisitPage(page: Writable, requestMethod: string, isValid: Validity) returns (r: Writable, events: seq<Event>)
    requires page.PageNode?
    ensures r == page.(writable := Initialize(page.writable, requestMethod, isValid).0)
    ensures events == Initialize(page.writable, requestMethod, isValid).1
    ensures (r, events) == Initialize(page, requestMethod, isValid)
    decreases page, 0
  {
    var c, ev := VisitChild(page.writable, requestMethod, isValid);
    r := page.(writable := c);
    events := ev;
  }

  /** visitSection: every writable is visited, in order, and the events follow that order. */
  method VisitSection(section: Writable, requestMethod: string, isValid: Validity) returns (r: Writable, events: seq<Event>)
    requires section.SectionNode?
    ensures r.SectionNode? && |r.writables| == |section.writables|
    ensures forall k :: 0 <= k < |section.writables| ==> r.writables[k] == Initialize(section.writables[k], requestMethod, isValid).0
    ensures (r, events) == Initialize(section, requestMethod, isValid)
    decreases section, 0
  {
    var ws := section.writables;
    var done: seq<Writable> := [];
    events := [];
    ghost var cs := seq(|ws|, i requires 0 <= i < |ws| => Initialize(ws[i], requestMethod, isValid));
    ghost var evs := seq(|ws|, i requires 0 <= i < |ws| => cs[i].1);
    for i := 0 to |ws|
      invariant |done| == i
      invariant forall k :: 0 <= k < i ==> done[k] == cs[k].0
      invariant events == Flatten(evs[..i])
    {
      var c, ev := VisitChild(ws[i], requestMethod, isValid);
      assert evs[..i + 1][..i] == evs[..i];
      done := done + [c];
      events := events + ev;
    }
    assert evs[..|ws|] == evs;
    assert done == seq(|ws|, i requires 0 <= i < |ws| => cs[i].0);
    r := SectionNode(done);
  }

  /** visitFieldBearer: nested bearers are initialised before any own field is suffixed. */
  method VisitFieldBearer(b: FieldBearer) returns (r: FieldBearer)
    ensures r == InitBearer(b)
    decreases b
  {
    var bearers := b.bearers;
    for i := 0 to |bearers|
      invariant |bearers| == |b.bearers|
      invariant forall k :: 0 <= k < i ==> bearers[k] == InitBearer(b.bearers[k])
      invariant forall k :: i <= k < |bearers| ==> bearers[k] == b.bearers[k]
    {
      var nb := VisitFieldBearer(bearers[i]);
      bearers := bearers[i := nb];
    }
    var fields := b.fields;
    for k := 0 to |fields|
      invariant |fields| == |b.fields|
      invariant forall j :: 0 <= j < k ==> fields[j] == b.fields[j].AddSuffix(Decimal(j))
      invariant forall j :: k <= j < |fields| ==> fields[j] == b.fields[j]
    {
      fields := fields[k := fields[k].AddSuffix(Decimal(k))];
    }
    r := FieldBearer(bearers, fields);
  }

  /**
   * visitForm: the form's field bearer is initialised first; then, on POST
   * only, validity is checked once and exactly one callback runs.
   */
  method VisitForm(form: Writable, requestMethod: string, isValid: Validity) returns (r: Writable, events: seq<Event>)
    requires form.FormNode?
    ensures r == form.(bearer := InitBearer(form.bearer))
    ensures requestMethod != Post ==> events == []
    ensures requestMethod == Post ==> events == [CheckedValidity(form.formId),
      if isValid(form.formId, r.bearer) then RanOnValid(form.formId) else RanOnInvalid(form.formId)]
    ensures (r, events) == Initialize(form, requestMethod, isValid)
    decreases form, 0
  {
    var b := VisitFieldBearer(form.bearer);
    events := [];
    if requestMethod == Post {
      events := [CheckedValidity(form.formId)];
      if isValid(form.formId, b) {
        events := events + [RanOnValid(form.formId)];
      } else {
        events := events + [RanOnInvalid(form.formId)];
      }
    }
    r := form.(bearer := b);
  }

  /** Each directly owned field gains exactly one suffix, its 0-based position; nothing else about it changes. */
  lemma InitBearerSuffixesByPosition(b: FieldBearer, k: nat)
    requires k < |b.fields|
    ensures |InitBearer(b).fields| == |b.fields| && |InitBearer(b).bearers| == |b.bearers|
    ensures var f, g := b.fields[k], InitBearer(b).fields[k];
      g.suffixes == f.suffixes + [Decimal(k)] && g == f.(suffixes := g.suffixes)
  {
  }

  /** Nothing guards against a second pass: it appends the same positional suffix again. */
  lemma SecondPassSuffixesAgain(b: FieldBearer, k: nat)
    requires k < |b.fields|
    ensures InitBearer(InitBearer(b)).fields[k].suffixes == b.fields[k].suffixes + [Decimal(k), Decimal(k)]
  {
  }

  /** A field bearer with every suffix list cleared: what the Initializer must leave alone. */
  function Unsuffixed(b: FieldBearer): FieldBearer
    decreases b
  {
    FieldBearer(seq(|b.bearers|, i requires 0 <= i < |b.bearers| => Unsuffixed(b.bearers[i])),
                seq(|b.fields|, k requires 0 <= k < |b.fields| => b.fields[k].(suffixes := [])))
  }

  function UnsuffixedTree(w: Writable): Writable
    decreases w
  {
    match w
    case PageNode(t, title, child) => PageNode(t, title, UnsuffixedTree(child))
    case SectionNode(ws) => SectionNode(seq(|ws|, i requires 0 <= i < |ws| => UnsuffixedTree(ws[i])))
    case BearerNode(b) => BearerNode(Unsuffixed(b))
    case FormNode(id, b) => FormNode(id, Unsuffixed(b))
    case Inert(_) => w
  }

  lemma {:induction false} InitBearerOnlySuffixes(b: FieldBearer)
    ensures Unsuffixed(InitBearer(b)) == Unsuffixed(b)
    decreases b
  {
    var r := InitBearer(b);
    forall i | 0 <= i < |b.bearers|
      ensures Unsuffixed(r.bearers[i]) == Unsuffixed(b.bearers[i])
    {
      InitBearerOnlySuffixes(b.bearers[i]);
    }
  }

  /** The Initializer changes nothing in the tree but the suffixes of fields. */
  lemma {:induction false} InitializeOnlySuffixes(w: Writable, requestMethod: string, isValid: Validity)
    ensures UnsuffixedTree(Initialize(w, requestMethod, isValid).0) == UnsuffixedTree(w)
    decreases w
  {
    match w
    case PageNode(t, title, child) =>
      InitializeOnlySuffixes(child, requestMethod, isValid);
    case SectionNode(ws) =>
      var r := Initialize(w, requestMethod, isValid).0;
      forall i | 0 <= i < |ws|
        ensures UnsuffixedTree(r.writables[i]) == UnsuffixedTree(ws[i])
      {
        InitializeOnlySuffixes(ws[i], requestMethod, isValid);
      }
    case BearerNode(b) =>
      InitBearerOnlySuffixes(b);
    case FormNode(id, b) =>
      InitBearerOnlySuffixes(b);
    case Inert(_) =>
  }

  /** Number of forms in the tree. */
  function FormCount(w: Writable): nat
    decreases w
  {
    match w
    case PageNode(_, _, child) => FormCount(child)
    case SectionNode(ws) => SumCounts(seq(|ws|, i requires 0 <= i < |ws| => FormCount(ws[i])))
    case BearerNode(_) => 0
    case FormNode(_, _) => 1
    case Inert(_) => 0
  }

  function SumCounts(ns: seq<nat>): nat
    decreases |ns|
  {
    if ns == [] then 0 else SumCounts(ns[..|ns| - 1]) + ns[|ns| - 1]
  }

  predicate IsOutcome(e: Event, form: string) {
    e == RanOnValid(form) || e == RanOnInvalid(form)
  }

  /** Events come in pairs: a validity check, then exactly one callback of the same form. */
  predicate Paired(events: seq<Event>)
    decreases |events|
  {
    events == [] ||
    (|events| >= 2 && events[0].CheckedValidity? && IsOutcome(events[1], events[0].form) && Paired(events[2..]))
  }

  lemma {:induction false} PairedConcat(a: seq<Event>, b: seq<Event>)
    requires Paired(a) && Paired(b)
    ensures Paired(a + b)
    decreases |a|
  {
    if a != [] {
      PairedConcat(a[2..], b);
      assert (a + b)[2..] == a[2..] + b;
      assert (a + b)[0] == a[0] && (a + b)[1] == a[1];
    } else {
      assert a + b == b;
    }
  }

  /**
   * On POST every form in the tree yields one validity check followed by
   * exactly one of onValid and onInvalid; on any other request method
   * nothing is checked and no callback runs.
   */
  lemma {:induction false} EventsPerForm(w: Writable, requestMethod: string, isValid: Validity)
    ensures var events := Initialize(w, requestMethod, isValid).1;
      (requestMethod != Post ==> events == []) &&
      (requestMethod == Post ==> Paired(events) && |events| == 2 * FormCount(w))
    decreases w
  {
    match w
    case PageNode(_, _, child) =>
      EventsPerForm(child, requestMethod, isValid);
    case SectionNode(ws) =>
      SectionEventsPerForm(ws, requestMethod, isValid);
    case BearerNode(_) =>
    case FormNode(id, b) =>
      if requestMethod == Post {
        var events := FormEvents(id, InitBearer(b), requestMethod, isValid);
        assert events[2..] == [];
      }
    case Inert(_) =>
  }

  /** EventsPerForm for a section: the children's events, concatenated in order. */
  lemma {:induction false} SectionEventsPerForm(ws: seq<Writable>, requestMethod: string, isValid: Validity)
    ensures var events := Initialize(SectionNode(ws), requestMethod, isValid).1;
      (requestMethod != Post ==> events == []) &&
      (requestMethod == Post ==> Paired(events) && |events| == 2 * FormCount(SectionNode(ws)))
    decreases ws
  {
    var cs := seq(|ws|, i requires 0 <= i < |ws| => Initialize(ws[i], requestMethod, isValid));
    var evs := seq(|ws|, i requires 0 <= i < |ws| => cs[i].1);
    var counts := seq(|ws|, i requires 0 <= i < |ws| => FormCount(ws[i]));
    for n := 0 to |ws|
      invariant requestMethod != Post ==> Flatten(evs[..n]) == []
      invariant requestMethod == Post ==> Paired(Flatten(evs[..n])) && |Flatten(evs[..n])| == 2 * SumCounts(counts[..n])
    {
      EventsPerForm(ws[n], requestMethod, isValid);
      assert evs[..n + 1][..n] == evs[..n];
      assert counts[..n + 1][..n] == counts[..n];
      if requestMethod == Post {
        PairedConcat(Flatten(evs[..n]), evs[n]);
      }
    }
    assert evs[..|ws|] == evs;
    assert counts[..|ws|] == counts;
  }
}
