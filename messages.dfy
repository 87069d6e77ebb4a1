/**
 * The console reporter: three flags fixed at construction, and the rule that
 * picks which of up to three prepared messages (normal, verbose, very verbose)
 * a report shows. Writing to standard output is left to the caller: the model
 * returns the message that would be written.
 */
module Messages {
  import opened Wrappers

  /** The reporter's flags; `vv` already folds `verbose` in. */
  datatype MessagePrint = MessagePrint(quiet: bool, verbose: bool, vv: bool)

  /**
   * The constructor: the three arguments are type-checked in order (a
   * non-`bool` raises `TypeError` with that argument), and very-verbose mode
   * is on when either `verbose` or `vv` is given.
   */
  function NewMessagePrint(quiet: Value, verbose: Value, vv: Value): (r: Result<MessagePrint, PyError>)
    ensures r.Success? <==> quiet.Bool? && verbose.Bool? && vv.Bool?
    ensures r.Success? ==> r.value.quiet == quiet.b && r.value.verbose == verbose.b
    ensures r.Success? ==> (r.value.vv <==> verbose.b || vv.b)
    ensures !quiet.Bool? ==> r == Failure(TypeError(quiet))
    ensures quiet.Bool? && !verbose.Bool? ==> r == Failure(TypeError(verbose))
    ensures quiet.Bool? && verbose.Bool? && !vv.Bool? ==> r == Failure(TypeError(vv))
  {
    if !quiet.Bool? then Failure(TypeError(quiet))
    else if !verbose.Bool? then Failure(TypeError(verbose))
    else if !vv.Bool? then Failure(TypeError(vv))
    else Success(MessagePrint(quiet.b, verbose.b, verbose.b || vv.b))
  }

  /** A reporter the constructor can build: verbose mode implies very-verbose mode. */
  predicate Reachable(p: MessagePrint) {
    p.verbose ==> p.vv
  }

  /** Every reporter the constructor returns is `Reachable`, and the defaults give the plain one. */
  lemma ConstructedReachable(quiet: Value, verbose: Value, vv: Value)
    ensures NewMessagePrint(quiet, verbose, vv).Success? ==> Reachable(NewMessagePrint(quiet, verbose, vv).value)
    ensures NewMessagePrint(Bool(false), Bool(false), Bool(false)) == Success(MessagePrint(false, false, false))
  {
  }

  /**
   * The message one report shows, or `None` when it shows nothing: the
   * very-verbose message in very-verbose mode, else the verbose message in
   * either verbose mode, else the normal message — each only when given —
   * and nothing at all when quiet.
   */
  function Select(p: MessagePrint, normal: Option<string>, verbose: Option<string>, vv: Option<string>): (shown: Option<string>)
    ensures p.quiet ==> shown == None
    ensures shown.Some? ==> shown == normal || shown == verbose || shown == vv
  {
    if p.quiet then None
    else if p.vv && vv.Some? then vv
    else if (p.vv || p.verbose) && verbose.Some? then verbose
    else normal
  }

  /**
   * The selection as a priority list: of the messages the mode admits,
   * the first given one in the order very-verbose, verbose, normal.
   */
  function Admitted(p: MessagePrint, normal: Option<string>, verbose: Option<string>, vv: Option<string>): seq<Option<string>> {
    if p.quiet then []
    else (if p.vv then [vv] else []) + (if p.vv || p.verbose then [verbose] else []) + [normal]
  }

  function FirstGiven(ms: seq<Option<string>>): Option<string> {
    if ms == [] then None else if ms[0].Some? then ms[0] else FirstGiven(ms[1..])
  }

  /** `Select` shows the first given message among those its mode admits. */
  lemma SelectIsFirstAdmitted(p: MessagePrint, normal: Option<string>, verbose: Option<string>, vv: Option<string>)
    ensures Select(p, normal, verbose, vv) == FirstGiven(Admitted(p, normal, verbose, vv))
  {
    var ms := Admitted(p, normal, verbose, vv);
    if !p.quiet {
      if p.vv {
        assert ms == [vv, verbose, normal];
        assert ms[1..] == [verbose, normal];
        assert ms[1..][1..] == [normal];
      } else if p.verbose {
        assert ms == [verbose, normal];
        assert FirstGiven(ms) == if verbose.Some? then verbose else FirstGiven([normal]);
      } else {
        assert ms == [normal];
      }
      assert FirstGiven([normal]) == if normal.Some? then normal else FirstGiven([]);
    }
  }

  /** A reporter that is not quiet always shows something when a normal message is given. */
  lemma NormalAlwaysShown(p: MessagePrint, normal: Option<string>, verbose: Option<string>, vv: Option<string>)
    ensures !p.quiet && normal.Some? ==> Select(p, normal, verbose, vv).Some?
  {
  }

  /**
   * For a constructed reporter, `verbose` alone decides nothing the
   * very-verbose flag does not: the verbose message is shown exactly when
   * very-verbose mode is on, no very-verbose message is given and a verbose one is.
   */
  lemma VerboseShownInVvMode(p: MessagePrint, normal: Option<string>, verbose: Option<string>, vv: Option<string>)
    requires Reachable(p) && !p.quiet && verbose.Some? && verbose != normal && verbose != vv
    ensures Select(p, normal, verbose, vv) == verbose <==> p.vv && vv.None?
  {
  }
}
