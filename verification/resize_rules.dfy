/** The two per-axis resize rules and the alignment each one selects.
    In the source, a rule is turned into one of four integer codes by a switch
    expression; here the codes are the closed datatype `Alignment`. */
module ResizeRules {

  /** Which side of the horizontal axis absorbs a change of width. */
  datatype WidthResizeRule = Left | Right | CenterLeft | CenterRight

  /** Which side of the vertical axis absorbs a change of height. */
  datatype HeightResizeRule = Up | Down | CenterUp | CenterDown

  /** The per-axis copy policy: the start side absorbs the whole change, the end
      side does, or the change is split in half with the odd unit going to the
      start side (`CenterStart`) or to the end side (`CenterEnd`). */
  datatype Alignment = Start | End | CenterStart | CenterEnd

  /** The code a width rule selects: Left is start, Right is end, and the two
      centre rules keep their tie-break side. */
  function WidthAlignment(rule: WidthResizeRule): (a: Alignment)
    ensures a == Start <==> rule == Left
    ensures a == End <==> rule == Right
    ensures a == CenterStart <==> rule == CenterLeft
    ensures a == CenterEnd <==> rule == CenterRight
  {
    match rule
    case Left => Start
    case Right => End
    case CenterLeft => CenterStart
    case CenterRight => CenterEnd
  }

  /** The code a height rule selects: Up is start, Down is end, and the two
      centre rules keep their tie-break side. */
  function HeightAlignment(rule: HeightResizeRule): (a: Alignment)
    ensures a == Start <==> rule == Up
    ensures a == End <==> rule == Down
    ensures a == CenterStart <==> rule == CenterUp
    ensures a == CenterEnd <==> rule == CenterDown
  {
    match rule
    case Up => Start
    case Down => End
    case CenterUp => CenterStart
    case CenterDown => CenterEnd
  }

  /** No two width rules share a code, and every code is reached. */
  lemma WidthAlignmentBijective(r1: WidthResizeRule, r2: WidthResizeRule, a: Alignment)
    ensures WidthAlignment(r1) == WidthAlignment(r2) ==> r1 == r2
    ensures exists r: WidthResizeRule :: WidthAlignment(r) == a
  {
    match a
    case Start => assert WidthAlignment(Left) == a;
    case End => assert WidthAlignment(Right) == a;
    case CenterStart => assert WidthAlignment(CenterLeft) == a;
    case CenterEnd => assert WidthAlignment(CenterRight) == a;
  }

  /** No two height rules share a code, and every code is reached. */
  lemma HeightAlignmentBijective(r1: HeightResizeRule, r2: HeightResizeRule, a: Alignment)
    ensures HeightAlignment(r1) == HeightAlignment(r2) ==> r1 == r2
    ensures exists r: HeightResizeRule :: HeightAlignment(r) == a
  {
    match a
    case Start => assert HeightAlignment(Up) == a;
    case End => assert HeightAlignment(Down) == a;
    case CenterStart => assert HeightAlignment(CenterUp) == a;
    case CenterEnd => assert HeightAlignment(CenterDown) == a;
  }
}
