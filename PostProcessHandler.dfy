/** `PostProcessHandler::handle`: picks the post-process strategy whose name matches the command. */
module PostProcessHandler {
  import opened Wrappers
  import opened Commands

  /** The nine strategies registered with the handler. */
  datatype Strategy =
    | VerticalScrollbar | VerticalDotScrollbar | Background | OffsetWithSiblings
    | ArtworkGeneration | Translation | Counter | InnerMask | TextOverlay

  /** Each strategy's `NAME` constant, which its `getName()` returns. */
  function Name(s: Strategy): string {
    match s
    case VerticalScrollbar => "vertical_scrollbar"
    case VerticalDotScrollbar => "vertical_dot_scrollbar"
    case Background => "background"
    case OffsetWithSiblings => "offset_with_siblings"
    case ArtworkGeneration => "artwork_generation"
    case Translation => "translation"
    case Counter => "counter"
    case InnerMask => "inner_mask"
    case TextOverlay => "text"
  }

  /** The arms of the `match`, in source order. */
  const Arms: seq<Strategy> := [
    VerticalScrollbar, VerticalDotScrollbar, Background, OffsetWithSiblings,
    ArtworkGeneration, Translation, Counter, InnerMask, TextOverlay ]

  /** The first arm whose name is `strategy`, as PHP's `match` tries them. */
  function FirstArm(arms: seq<Strategy>, strategy: string): (r: Option<Strategy>)
    ensures r.Some? ==> r.value in arms && Name(r.value) == strategy
    ensures r.None? ==> forall s :: s in arms ==> Name(s) != strategy
    decreases |arms|
  {
    if arms == [] then None
    else if Name(arms[0]) == strategy then Some(arms[0])
    else FirstArm(arms[1..], strategy)
  }

  /** The strategy `handle` runs for a command, or the exception it throws. */
  function Dispatch(c: Command): (r: Result<Strategy>)
    ensures !c.PostProcess? ==> r == Failure(Exception(InvalidArgumentException, ""))
    ensures c.PostProcess? ==> forall s :: r == Success(s) <==> Name(s) == c.pp.strategy
    ensures c.PostProcess? && r.Failure? ==>
      r.error == Exception(RuntimeException, "Cannot handle unknown strategy \"" + c.pp.strategy + "\"")
  {
    if !c.PostProcess? then Failure(Exception(InvalidArgumentException, ""))
    else
      match FirstArm(Arms, c.pp.strategy)
      case Some(s) =>
        NamesDistinct();
        Success(s)
      case None =>
        ArmsComplete();
        Failure(Exception(RuntimeException, "Cannot handle unknown strategy \"" + c.pp.strategy + "\""))
  }

  lemma ArmsComplete()
    ensures forall s: Strategy :: s in Arms
  {
    forall s: Strategy ensures s in Arms {
      match s
      case VerticalScrollbar => assert Arms[0] == s;
      case VerticalDotScrollbar => assert Arms[1] == s;
      case Background => assert Arms[2] == s;
      case OffsetWithSiblings => assert Arms[3] == s;
      case ArtworkGeneration => assert Arms[4] == s;
      case Translation => assert Arms[5] == s;
      case Counter => assert Arms[6] == s;
      case InnerMask => assert Arms[7] == s;
      case TextOverlay => assert Arms[8] == s;
    }
  }

  /** No two strategies share a name, so at most one arm can match. */
  lemma NamesDistinct()
    ensures forall a: Strategy, b: Strategy :: Name(a) == Name(b) ==> a == b
  {
  }
}
