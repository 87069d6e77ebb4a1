/**
 * The converter's configuration defaults and their type-checked setters.
 * Page layout and reading direction are further restricted to the names a
 * PDF viewer understands; the model keeps them inside those lists as a class
 * invariant.
 */
module Settings {
  import opened Wrappers

  /** The page layouts a default may name; `""` leaves the layout to the viewer. */
  const PagelayoutChoices: seq<string> :=
    ["", "SinglePage", "OneColumn", "TwoColumnLeft", "TwoColumnRight", "TwoPageLeft", "TwoPageRight"]

  /** The reading directions a default may name; `""` leaves the direction to the viewer. */
  const DirectionChoices: seq<string> := ["", "L2R", "R2L"]

  /**
   * The check the two validated setters make before storing: a non-string is a
   * `TypeError`, a string outside `choices` a `ValueError`, both carrying the
   * rejected value; otherwise the string itself is stored.
   */
  function CheckChoice(value: Value, choices: seq<string>): (r: Result<string, PyError>)
    ensures r.Success? <==> value.Str? && value.s in choices
    ensures r.Success? ==> r.value == value.s
    ensures r.Failure? ==> r.error.bad == value
    ensures r.Failure? ==> (r.error.TypeError? <==> !value.Str?)
  {
    if !value.Str? then Failure(TypeError(value))
    else if value.s !in choices then Failure(ValueError(value))
    else Success(value.s)
  }

  /** Every listed name is accepted unchanged, and the empty name is always allowed. */
  lemma ListedChoicesAccepted(s: string)
    ensures s in PagelayoutChoices ==> CheckChoice(Str(s), PagelayoutChoices) == Success(s)
    ensures s in DirectionChoices ==> CheckChoice(Str(s), DirectionChoices) == Success(s)
    ensures "" in PagelayoutChoices && "" in DirectionChoices
  {
    assert PagelayoutChoices[0] == "" && DirectionChoices[0] == "";
  }

  class Images2Pdf {
    var dryRun: bool
    var defaultPagelayout: string
    var defaultDirection: string
    var defaultResample: int
    var defaultOutlines: bool
    var defaultLinearize: bool
    var defaultObjectstream: bool
    var defaultMetafile: bool

    /** The stored page layout and direction are always listed names. */
    predicate Valid()
      reads this
    {
      defaultPagelayout in PagelayoutChoices && defaultDirection in DirectionChoices
    }

    constructor(dryRun: bool)
      ensures Valid()
      ensures this.dryRun == dryRun
      ensures defaultPagelayout == "" && defaultDirection == "" && defaultResample == 0
      ensures !defaultOutlines && !defaultLinearize && !defaultObjectstream && !defaultMetafile
    {
      this.dryRun := dryRun;
      defaultPagelayout := "";
      defaultDirection := "";
      defaultResample := 0;
      defaultOutlines := false;
      defaultLinearize := false;
      defaultObjectstream := false;
      defaultMetafile := false;
      new;
      ListedChoicesAccepted("");
    }

    /** The `default_pagelayout` setter: stores a listed name, or reports the error and changes nothing. */
    method SetDefaultPagelayout(value: Value) returns (err: Option<PyError>)
      requires Valid()
      modifies this
      ensures Valid()
      ensures err == None <==> value.Str? && value.s in PagelayoutChoices
      ensures err == None ==> defaultPagelayout == value.s
      ensures err.Some? ==> err.value == CheckChoice(value, PagelayoutChoices).error
      ensures err.Some? ==> defaultPagelayout == old(defaultPagelayout)
      ensures defaultDirection == old(defaultDirection) && defaultResample == old(defaultResample)
      ensures defaultOutlines == old(defaultOutlines) && defaultLinearize == old(defaultLinearize)
      ensures defaultObjectstream == old(defaultObjectstream) && defaultMetafile == old(defaultMetafile)
      ensures dryRun == old(dryRun)
    {
      var checked := CheckChoice(value, PagelayoutChoices);
      if checked.Failure? {
        return Some(checked.error);
      }
      defaultPagelayout := checked.value;
      err := None;
    }

    /** The `default_direction` setter: stores a listed name, or reports the error and changes nothing. */
    method SetDefaultDirection(value: Value) returns (err: Option<PyError>)
      requires Valid()
      modifies this
      ensures Valid()
      ensures err == None <==> value.Str? && value.s in DirectionChoices
      ensures err == None ==> defaultDirection == value.s
      ensures err.Some? ==> err.value == CheckChoice(value, DirectionChoices).error
      ensures err.Some? ==> defaultDirection == old(defaultDirection)
      ensures defaultPagelayout == old(defaultPagelayout) && defaultResample == old(defaultResample)
      ensures defaultOutlines == old(defaultOutlines) && defaultLinearize == old(defaultLinearize)
      ensures defaultObjectstream == old(defaultObjectstream) && defaultMetafile == old(defaultMetafile)
      ensures dryRun == old(dryRun)
    {
      var checked := CheckChoice(value, DirectionChoices);
      if checked.Failure? {
        return Some(checked.error);
      }
      defaultDirection := checked.value;
      err := None;
    }

    /** The `default_resample` setter: any `int` (a `bool` is not one here), otherwise a `TypeError` and no change. */
    method SetDefaultResample(value: Value) returns (err: Option<PyError>)
      requires Valid()
      modifies this
      ensures Valid()
      ensures err == None <==> value.Int?
      ensures err == None ==> defaultResample == value.i
      ensures err.Some? ==> err.value == TypeError(value) && defaultResample == old(defaultResample)
      ensures defaultPagelayout == old(defaultPagelayout) && defaultDirection == old(defaultDirection)
      ensures defaultOutlines == old(defaultOutlines) && defaultLinearize == old(defaultLinearize)
      ensures defaultObjectstream == old(defaultObjectstream) && defaultMetafile == old(defaultMetafile)
      ensures dryRun == old(dryRun)
    {
      if !value.Int? {
        return Some(TypeError(value));
      }
      defaultResample := value.i;
      err := None;
    }

    /** The `default_outlines` setter: any `bool`, otherwise a `TypeError` and no change. */
    method SetDefaultOutlines(value: Value) returns (err: Option<PyError>)
      requires Valid()
      modifies this
      ensures Valid()
      ensures err == None <==> value.Bool?
      ensures err == None ==> defaultOutlines == value.b
      ensures err.Some? ==> err.value == TypeError(value) && defaultOutlines == old(defaultOutlines)
      ensures defaultPagelayout == old(defaultPagelayout) && defaultDirection == old(defaultDirection)
      ensures defaultResample == old(defaultResample) && defaultLinearize == old(defaultLinearize)
      ensures defaultObjectstream == old(defaultObjectstream) && defaultMetafile == old(defaultMetafile)
      ensures dryRun == old(dryRun)
    {
      if !value.Bool? {
        return Some(TypeError(value));
      }
      defaultOutlines := value.b;
      err := None;
    }

    /** The `default_linearize` setter: any `bool`, otherwise a `TypeError` and no change. */
    method SetDefaultLinearize(value: Value) returns (err: Option<PyError>)
      requires Valid()
      modifies this
      ensures Valid()
      ensures err == None <==> value.Bool?
      ensures err == None ==> defaultLinearize == value.b
      ensures err.Some? ==> err.value == TypeError(value) && defaultLinearize == old(defaultLinearize)
      ensures defaultPagelayout == old(defaultPagelayout) && defaultDirection == old(defaultDirection)
      ensures defaultResample == old(defaultResample) && defaultOutlines == old(defaultOutlines)
      ensures defaultObjectstream == old(defaultObjectstream) && defaultMetafile == old(defaultMetafile)
      ensures dryRun == old(dryRun)
    {
      if !value.Bool? {
        return Some(TypeError(value));
      }
      defaultLinearize := value.b;
      err := None;
    }

    /** The `default_objectstream` setter: any `bool`, otherwise a `TypeError` and no change. */
    method SetDefaultObjectstream(value: Value) returns (err: Option<PyError>)
      requires Valid()
      modifies this
      ensures Valid()
      ensures err == None <==> value.Bool?
      ensures err == None ==> defaultObjectstream == value.b
      ensures err.Some? ==> err.value == TypeError(value) && defaultObjectstream == old(defaultObjectstream)
      ensures defaultPagelayout == old(defaultPagelayout) && defaultDirection == old(defaultDirection)
      ensures defaultResample == old(defaultResample) && defaultOutlines == old(defaultOutlines)
      ensures defaultLinearize == old(defaultLinearize) && defaultMetafile == old(defaultMetafile)
      ensures dryRun == old(dryRun)
    {
      if !value.Bool? {
        return Some(TypeError(value));
      }
      defaultObjectstream := value.b;
      err := None;
    }

    /** The `default_metafile` setter: any `bool`, otherwise a `TypeError` and no change. */
    method SetDefaultMetafile(value: Value) returns (err: Option<PyError>)
      requires Valid()
      modifies this
      ensures Valid()
      ensures err == None <==> value.Bool?
      ensures err == None ==> defaultMetafile == value.b
      ensures err.Some? ==> err.value == TypeError(value) && defaultMetafile == old(defaultMetafile)
      ensures defaultPagelayout == old(defaultPagelayout) && defaultDirection == old(defaultDirection)
      ensures defaultResample == old(defaultResample) && defaultOutlines == old(defaultOutlines)
      ensures defaultLinearize == old(defaultLinearize) && defaultObjectstream == old(defaultObjectstream)
      ensures dryRun == old(dryRun)
    {
      if !value.Bool? {
        return Some(TypeError(value));
      }
      defaultMetafile := value.b;
      err := None;
    }
  }
}
