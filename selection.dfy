/** Which pre-rendered tile goes where, decided from a module's activity and
    the activity of its four direct neighbours. */
module Selection {

  /** qrcode's ActiveWithNeighbors as the drawers read it: `me` is the module
      itself (the object's truth value), n/e/s/w its direct neighbours. */
  datatype Context = Context(me: bool, n: bool, e: bool, s: bool, w: bool)

  datatype Corner = NW | NE | SE | SW

  /** The four direct neighbours. */
  datatype Side = North | East | South | West

  function Active(ctx: Context, side: Side): bool {
    match side
    case North => ctx.n
    case East => ctx.e
    case South => ctx.s
    case West => ctx.w
  }

  /** Where a corner sits on the module, and so which two sides meet there. */
  predicate IsTop(c: Corner) { c == NW || c == NE }
  predicate IsLeft(c: Corner) { c == NW || c == SW }

  predicate Touches(c: Corner, side: Side) {
    match side
    case North => IsTop(c)
    case South => !IsTop(c)
    case West => IsLeft(c)
    case East => !IsLeft(c)
  }

  /** A corner touches exactly two sides: the top or bottom one and the left
      or right one. */
  lemma TouchCases(c: Corner)
    ensures forall side :: Touches(c, side) <==>
      side == (if IsTop(c) then North else South) || side == (if IsLeft(c) then West else East)
  {
    forall side
      ensures Touches(c, side) <==>
        side == (if IsTop(c) then North else South) || side == (if IsLeft(c) then West else East)
    {
      match side
      case North =>
      case East =>
      case South =>
      case West =>
    }
  }

  /** RoundedModuleDrawer: corner c gets its rounded tile exactly when both
      neighbours that touch that corner are inactive. */
  function CornerRounded(ctx: Context, c: Corner): (r: bool)
    ensures r <==> forall side :: Touches(c, side) ==> !Active(ctx, side)
  {
    TouchCases(c);
    assert Touches(c, if IsTop(c) then North else South) && Touches(c, if IsLeft(c) then West else East);
    match c
    case NW => !ctx.w && !ctx.n
    case NE => !ctx.n && !ctx.e
    case SE => !ctx.e && !ctx.s
    case SW => !ctx.s && !ctx.w
  }

  /** The corner met next when going round the module clockwise. */
  function Clockwise(c: Corner): Corner {
    match c
    case NW => NE
    case NE => SE
    case SE => SW
    case SW => NW
  }

  /** The neighbourhood turned a quarter clockwise: what was above is now to
      the right. Rounding turns with it. */
  function Turned(ctx: Context): (t: Context)
    ensures t.me == ctx.me
    ensures forall c :: CornerRounded(t, Clockwise(c)) == CornerRounded(ctx, c)
  {
    Context(ctx.me, ctx.w, ctx.n, ctx.e, ctx.s)
  }

  /** The number of rounded corners of a module. It is never three; it is four
      exactly for an isolated module, and zero exactly when a straight run of
      active modules passes through it. */
  function RoundedCount(ctx: Context): (k: nat)
    ensures k <= 4 && k != 3
    ensures k == 4 <==> !ctx.n && !ctx.e && !ctx.s && !ctx.w
    ensures k == 0 <==> (ctx.n && ctx.s) || (ctx.e && ctx.w)
  {
    (if CornerRounded(ctx, NW) then 1 else 0) + (if CornerRounded(ctx, NE) then 1 else 0)
    + (if CornerRounded(ctx, SE) then 1 else 0) + (if CornerRounded(ctx, SW) then 1 else 0)
  }

  /** With all four neighbours active every corner is square; with none active
      every corner is round. */
  lemma RoundingExtremes(ctx: Context)
    ensures ctx.n && ctx.e && ctx.s && ctx.w ==> forall c :: !CornerRounded(ctx, c)
    ensures !ctx.n && !ctx.e && !ctx.s && !ctx.w ==> forall c :: CornerRounded(ctx, c)
  {
  }

  /** VerticalBarsDrawer: the top half is rounded iff the neighbour on the
      side both top corners share is inactive, and likewise the bottom. */
  function TopRounded(ctx: Context): (r: bool)
    ensures r <==> forall side :: Touches(NW, side) && Touches(NE, side) ==> !Active(ctx, side)
  {
    TouchCases(NW);
    TouchCases(NE);
    assert Touches(NW, North) && Touches(NE, North);
    !ctx.n
  }

  function BottomRounded(ctx: Context): (r: bool)
    ensures r <==> forall side :: Touches(SW, side) && Touches(SE, side) ==> !Active(ctx, side)
  {
    TouchCases(SW);
    TouchCases(SE);
    assert Touches(SW, South) && Touches(SE, South);
    !ctx.s
  }

  /** HorizontalBarsDrawer: the left half is rounded iff the neighbour on the
      side both left corners share is inactive, and likewise the right. */
  function LeftRounded(ctx: Context): (r: bool)
    ensures r <==> forall side :: Touches(NW, side) && Touches(SW, side) ==> !Active(ctx, side)
  {
    TouchCases(NW);
    TouchCases(SW);
    assert Touches(NW, West) && Touches(SW, West);
    !ctx.w
  }

  function RightRounded(ctx: Context): (r: bool)
    ensures r <==> forall side :: Touches(NE, side) && Touches(SE, side) ==> !Active(ctx, side)
  {
    TouchCases(NE);
    TouchCases(SE);
    assert Touches(NE, East) && Touches(SE, East);
    !ctx.e
  }

  /** Vertical bars look only along the column and horizontal bars only along
      the row: the other two flags can be anything. */
  lemma BarsIgnoreCrossAxis(ctx: Context, a: bool, b: bool)
    ensures TopRounded(ctx.(e := a, w := b)) == TopRounded(ctx)
    ensures BottomRounded(ctx.(e := a, w := b)) == BottomRounded(ctx)
    ensures LeftRounded(ctx.(n := a, s := b)) == LeftRounded(ctx)
    ensures RightRounded(ctx.(n := a, s := b)) == RightRounded(ctx)
  {
  }

  /** For a module with no neighbour across the bar, the bar's rounding agrees
      with the corner rounding of RoundedModuleDrawer: a bar end is round
      exactly when both corners on that end would be. */
  lemma BarsAgreeWithCorners(ctx: Context)
    ensures !ctx.e && !ctx.w ==>
      (TopRounded(ctx) <==> CornerRounded(ctx, NW) && CornerRounded(ctx, NE)) &&
      (BottomRounded(ctx) <==> CornerRounded(ctx, SW) && CornerRounded(ctx, SE))
    ensures !ctx.n && !ctx.s ==>
      (LeftRounded(ctx) <==> CornerRounded(ctx, NW) && CornerRounded(ctx, SW)) &&
      (RightRounded(ctx) <==> CornerRounded(ctx, NE) && CornerRounded(ctx, SE))
  {
  }
}
