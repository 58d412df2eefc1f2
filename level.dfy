/** What `spawnWalls` and `spawnFrogs` build a round from, with the random
    source made explicit: each call `rand.nextInt(bound)` is modelled by a
    raw integer that the caller supplies, reduced into `[0, bound)`. Every
    outcome `nextInt` can produce is reachable this way. */
module Level {
  import opened Geometry

  const ArenaWidth: int := 1280
  const ArenaHeight: int := 720
  const MinWallWidth: int := 100
  const MaxWallWidth: int := 200
  const WallHeight: int := 20
  /** `baseWalls`: walls in a round before the retry count is added. */
  const BaseWalls: int := 10

  /** The three raw draws behind one wall candidate: width, x and y. */
  datatype WallDraw = WallDraw(width: int, x: int, y: int)

  /** The two raw draws behind one frog: x and y. */
  datatype FrogDraw = FrogDraw(x: int, y: int)

  /** `rand.nextInt(bound)` for the raw draw `draw`. */
  function NextInt(draw: int, bound: int): (r: int)
    requires bound > 0
    ensures 0 <= r < bound
  {
    draw % bound
  }

  /** Bounds every generated wall satisfies: width in [100, 200], height 20,
      `0 <= x < 1280 - width` and `0 <= y < 700`. */
  predicate WallInBounds(w: Rect)
  {
    && MinWallWidth <= w.w <= MaxWallWidth && w.h == WallHeight
    && 0 <= w.x < ArenaWidth - w.w
    && 0 <= w.y < ArenaHeight - WallHeight
  }

  /** The candidate wall one round of the generation loop draws. */
  function WallFrom(d: WallDraw): (r: Rect)
    ensures WallInBounds(r)
  {
    var width := NextInt(d.width, MaxWallWidth - MinWallWidth + 1) + MinWallWidth;
    Rect(NextInt(d.x, ArenaWidth - width), NextInt(d.y, ArenaHeight - WallHeight), width, WallHeight)
  }

  /** Every wall within the bounds is a candidate some draw produces, so the
      draw model leaves out no outcome of the random source. */
  lemma EveryWallDrawable(w: Rect)
    requires WallInBounds(w)
    ensures WallFrom(WallDraw(w.w - MinWallWidth, w.x, w.y)) == w
  {
    NextIntSmall(w.w - MinWallWidth, MaxWallWidth - MinWallWidth + 1);
    NextIntSmall(w.x, ArenaWidth - w.w);
    NextIntSmall(w.y, ArenaHeight - WallHeight);
  }

  lemma NextIntSmall(draw: int, bound: int)
    requires 0 <= draw < bound
    ensures NextInt(draw, bound) == draw
  {
  }

  /** The 150 by 150 zone around the player's start that no wall may touch. */
  function StartZone(playerX: int, playerY: int): Rect
  {
    Rect(playerX - 50, playerY - 50, 150, 150)
  }

  /** The walls the rejection loop of `spawnWalls` keeps when it wants `n`
      walls and the random source yields `draws`: a candidate meeting the
      start zone is dropped and the loop draws again; the loop stops once
      `n` walls are kept or the draws run out. */
  function AcceptedWalls(draws: seq<WallDraw>, zone: Rect, n: nat): (r: seq<Rect>)
    ensures |r| <= n
    ensures forall w :: w in r ==> WallInBounds(w) && !Intersects(w, zone)
  {
    if n == 0 || draws == [] then []
    else
      var w := WallFrom(draws[0]);
      if Intersects(w, zone) then AcceptedWalls(draws[1..], zone, n)
      else [w] + AcceptedWalls(draws[1..], zone, n - 1)
  }

  /** How many of the draws give a candidate that misses the zone. */
  function AcceptingDraws(draws: seq<WallDraw>, zone: Rect): nat
  {
    if draws == [] then 0
    else (if Intersects(WallFrom(draws[0]), zone) then 0 else 1) + AcceptingDraws(draws[1..], zone)
  }

  /** The loop produces exactly `n` walls whenever the random source yields
      at least `n` acceptable candidates, and otherwise every acceptable one. */
  lemma {:induction false} AcceptedWallsCount(draws: seq<WallDraw>, zone: Rect, n: nat)
    ensures |AcceptedWalls(draws, zone, n)| == if n <= AcceptingDraws(draws, zone) then n else AcceptingDraws(draws, zone)
  {
    if n != 0 && draws != [] {
      if Intersects(WallFrom(draws[0]), zone) {
        AcceptedWallsCount(draws[1..], zone, n);
      } else {
        AcceptedWallsCount(draws[1..], zone, n - 1);
      }
    }
  }

  /** Where a frog is put: `new Point(rand.nextInt(1280), rand.nextInt(720))`. */
  function FrogFrom(d: FrogDraw): (p: Point)
    ensures 0 <= p.x < ArenaWidth && 0 <= p.y < ArenaHeight
  {
    Point(NextInt(d.x, ArenaWidth), NextInt(d.y, ArenaHeight))
  }

  /** Every point of the arena is a place some draw puts a frog. */
  lemma EveryFrogDrawable(p: Point)
    requires 0 <= p.x < ArenaWidth && 0 <= p.y < ArenaHeight
    ensures FrogFrom(FrogDraw(p.x, p.y)) == p
  {
    NextIntSmall(p.x, ArenaWidth);
    NextIntSmall(p.y, ArenaHeight);
  }
}
