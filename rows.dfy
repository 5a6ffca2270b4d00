/** Row: an immutable record of a field bearer, an onClick action and a highlightable flag. */
module Rows {
  import opened Wrappers
  import opened Fields

  datatype Row = Row(fieldBearer: FieldBearer, onClick: Option<string>, highlightable: bool)
  {
    function GetOnClick(): Option<string> { onClick }

    function GetFieldBearer(): FieldBearer { fieldBearer }

    function IsHighlightable(): bool { highlightable }
  }

  /** Each getter returns exactly what the constructor was given. */
  lemma GettersReturnConstructorArguments(fb: FieldBearer, onClick: Option<string>, highlightable: bool)
    ensures Row(fb, onClick, highlightable).GetFieldBearer() == fb
    ensures Row(fb, onClick, highlightable).GetOnClick() == onClick
    ensures Row(fb, onClick, highlightable).IsHighlightable() == highlightable
  {
  }
}
