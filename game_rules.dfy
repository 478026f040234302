/**
 * The rules of the game that internal/game/update.go computes as plain
 * expressions: key meanings and frog steps, the severity classes of
 * obstacles, lane layout, obstacle placement, decorative placement, the
 * screen wrap, collisions and the collision message.
 */
module GameRules {
  import opened Wrappers
  import opened Grype
  import opened GameModel

  /* ---------------------------------------------------------------------
   * Go arithmetic
   * --------------------------------------------------------------------- */

  /** Go's `/` on int, which truncates toward zero: the quotient and Go's
      remainder (which takes the dividend's sign, see Rem) rebuild the dividend. */
  function Quot(a: int, b: int): (q: int)
    requires b != 0
    ensures q * b + Rem(a, b) == a
    ensures a >= 0 && b > 0 ==> q == a / b
  {
    var n := if a < 0 then -a else a;
    var m := if b < 0 then -b else b;
    var q := n / m;
    var s := if (a < 0) != (b < 0) then -q else q;
    QuotParts(a, b, n, m, q, s);
    s
  }

  lemma QuotParts(a: int, b: int, n: int, m: int, q: int, s: int)
    requires b != 0 && n == (if a < 0 then -a else a) && m == (if b < 0 then -b else b)
    requires q == n / m && s == (if (a < 0) != (b < 0) then -q else q)
    ensures s * b + Rem(a, b) == a
  {
  }

  /** Go's `%` on int, whose remainder takes the sign of the dividend (and math.Mod on exact whole values). */
  function Rem(a: int, b: int): (r: int)
    requires b != 0
    ensures a >= 0 ==> 0 <= r < (if b < 0 then -b else b)
    ensures a < 0 ==> -(if b < 0 then -b else b) < r <= 0
    ensures (a - r) % (if b < 0 then -b else b) == 0
  {
    var m := if b < 0 then -b else b;
    var r := if a >= 0 then a % m else -((-a) % m);
    RemDiffersByMultiple(a, m, r);
    r
  }

  /** The remainder of |a| by m, given the dividend's sign back, differs from a by a multiple of m. */
  lemma RemDiffersByMultiple(a: int, m: int, r: int)
    requires m > 0 && r == (if a >= 0 then a % m else -((-a) % m))
    ensures (a - r) % m == 0
  {
    if a >= 0 {
      var k := a / m;
      assert a - r == k * m;
      MultipleHasNoRemainder(k, m);
    } else {
      var k := (-a) / m;
      assert -a == k * m + (-a) % m;
      assert a - r == (-k) * m;
      MultipleHasNoRemainder(-k, m);
    }
  }

  /** A multiple of m leaves no remainder: k*m is k*m/m times m plus
      something in [0, m), and that something is itself a multiple of m. */
  lemma MultipleHasNoRemainder(k: int, m: int)
    requires m > 0
    ensures (k * m) % m == 0
  {
    var x := k * m;
    var d := k - x / m;
    assert d * m == x % m;
    if d >= 1 {
      AtLeastOnce(d, m);
      assert false;
    } else if d <= -1 {
      AtLeastOnce(-d, m);
      assert false;
    }
  }

  lemma AtLeastOnce(d: int, m: int)
    requires d >= 1 && m > 0
    ensures d * m >= m
  {
  }

  /* ---------------------------------------------------------------------
   * Keys and frog movement (handleKeyPress)
   * --------------------------------------------------------------------- */

  predicate IsQuitKey(key: string)
  {
    key == "q" || key == "esc" || key == "ctrl+c"
  }

  predicate IsRestartKey(key: string)
  {
    key == "enter" || key == " "
  }

  datatype Direction = Up | Down | Left | Right

  /** The movement keys: arrows and WASD. */
  function KeyDirection(key: string): (d: Option<Direction>)
    ensures d == Some(Up) <==> key == "up" || key == "w"
    ensures d == Some(Down) <==> key == "down" || key == "s"
    ensures d == Some(Left) <==> key == "left" || key == "a"
    ensures d == Some(Right) <==> key == "right" || key == "d"
    ensures d.Some? ==> !IsQuitKey(key) && !IsRestartKey(key)
  {
    if key == "up" || key == "w" then Some(Up)
    else if key == "down" || key == "s" then Some(Down)
    else if key == "left" || key == "a" then Some(Left)
    else if key == "right" || key == "d" then Some(Right)
    else None
  }

  /** The cell next to `p` in direction `d`; row 0 is at the top. */
  function Neighbor(p: Position, d: Direction): Position
  {
    match d
    case Up => Position(p.x, p.y - 1)
    case Down => Position(p.x, p.y + 1)
    case Left => Position(p.x - 1, p.y)
    case Right => Position(p.x + 1, p.y)
  }

  /** The bound a step in direction `d` must respect: rows 0..GameAreaHeight-1
      and columns 0..width-1, each checked on the side the step goes to. */
  predicate WithinBound(q: Position, d: Direction, width: int)
  {
    match d
    case Up => q.y >= 0
    case Down => q.y <= GameAreaHeight - 1
    case Left => q.x >= 0
    case Right => q.x <= width - 1
  }

  predicate InField(p: Position, width: int)
  {
    0 <= p.x <= width - 1 && 0 <= p.y <= GameAreaHeight - 1
  }

  /** One frog step: to the neighbouring cell when that stays within the
      bound, otherwise nowhere. */
  function Step(p: Position, d: Direction, width: int): (q: Position)
    ensures q == p || q == Neighbor(p, d)
    ensures q == Neighbor(p, d) <==> WithinBound(Neighbor(p, d), d, width)
    ensures InField(p, width) ==> InField(q, width)
  {
    match d
    case Up => if p.y > 0 then Position(p.x, p.y - 1) else p
    case Down => if p.y < GameAreaHeight - 1 then Position(p.x, p.y + 1) else p
    case Left => if p.x > 0 then Position(p.x - 1, p.y) else p
    case Right => if p.x < width - 1 then Position(p.x + 1, p.y) else p
  }

  /** A step changes exactly one coordinate, by exactly one. */
  lemma StepMovesOneCell(p: Position, d: Direction, width: int)
    ensures var q := Step(p, d, width);
      q == p || (q.x == p.x && (q.y - p.y == 1 || p.y - q.y == 1)) || (q.y == p.y && (q.x - p.x == 1 || p.x - q.x == 1))
  {
  }

  /* ---------------------------------------------------------------------
   * Obstacle classes (getObstacleProperties)
   * --------------------------------------------------------------------- */

  datatype ObstacleClass = Car | Truck | Boss

  datatype ObstacleProps = ObstacleProps(width: int, speedMultiplier: real, kind: ObstacleClass)

  function ClassRank(c: ObstacleClass): int
  {
    match c
    case Car => 0
    case Truck => 1
    case Boss => 2
  }

  /** Width, speed multiplier and class of the obstacle a vulnerability becomes:
      by its CVSS score when it has one, otherwise by its severity label. */
  function ObstacleProperties(v: Vulnerability): (p: ObstacleProps)
    ensures p.width == 1 || p.width == 2
    ensures p.width == 2 <==> p.kind != Car
    ensures p.speedMultiplier > 0.0
    ensures p.kind == Boss ==> p.speedMultiplier == 1.5
    ensures p.kind == Truck ==> p.speedMultiplier == 1.2
    ensures p.kind == Car ==> p.speedMultiplier in {1.3, 1.0, 0.8}
    ensures v.cvss > 0.0 ==> (p.kind == Boss <==> v.cvss >= 9.0)
    ensures v.cvss > 0.0 ==> (p.kind == Truck <==> 7.0 <= v.cvss < 9.0)
    ensures v.cvss > 0.0 ==> (p.speedMultiplier == 1.3 <==> 4.0 <= v.cvss < 7.0)
    ensures v.cvss > 0.0 ==> (p.speedMultiplier == 1.0 <==> v.cvss < 4.0)
    ensures v.cvss <= 0.0 ==> (p.kind == Boss <==> v.severity == "Critical")
    ensures v.cvss <= 0.0 ==> (p.kind == Truck <==> v.severity == "High")
    ensures v.cvss <= 0.0 ==> (p.speedMultiplier == 1.3 <==> v.severity == "Medium")
    ensures v.cvss <= 0.0 ==> (p.speedMultiplier == 0.8 <==> v.severity == "Negligible")
    ensures v.cvss <= 0.0 ==> (p.speedMultiplier == 1.0 <==>
      v.severity !in {"Critical", "High", "Medium", "Negligible"})
  {
    if v.cvss > 0.0 then
      if v.cvss >= 9.0 then ObstacleProps(2, 1.5, Boss)
      else if v.cvss >= 7.0 then ObstacleProps(2, 1.2, Truck)
      else if v.cvss >= 4.0 then ObstacleProps(1, 1.3, Car)
      else ObstacleProps(1, 1.0, Car)
    else if v.severity == "Critical" then ObstacleProps(2, 1.5, Boss)
    else if v.severity == "High" then ObstacleProps(2, 1.2, Truck)
    else if v.severity == "Medium" then ObstacleProps(1, 1.3, Car)
    else if v.severity == "Low" then ObstacleProps(1, 1.0, Car)
    else if v.severity == "Negligible" then ObstacleProps(1, 0.8, Car)
    else ObstacleProps(1, 1.0, Car)
  }

  /** Rows of the severity table: a 9.5 score is a boss, an unscored
      "Critical" is one too, an unscored "Medium" is a fast car and an
      unscored "Negligible" a slow one. */
  lemma SeverityTableExamples()
    ensures ObstacleProperties(Vulnerability("CVE-1", "Low", 9.5, "p", "")) == ObstacleProps(2, 1.5, Boss)
    ensures ObstacleProperties(Vulnerability("CVE-2", "Medium", 0.0, "p", "")) == ObstacleProps(1, 1.3, Car)
    ensures ObstacleProperties(Vulnerability("CVE-3", "Critical", 0.0, "p", "")) == ObstacleProps(2, 1.5, Boss)
    ensures ObstacleProperties(Vulnerability("CVE-4", "Negligible", 0.0, "p", "")) == ObstacleProps(1, 0.8, Car)
    ensures ObstacleProperties(Vulnerability("CVE-5", "", 7.2, "p", "")) == ObstacleProps(2, 1.2, Truck)
  {
  }

  /** A positive score decides alone: the label is then ignored. */
  lemma ScoreOverridesLabel(a: Vulnerability, b: Vulnerability)
    requires a.cvss > 0.0 && a.cvss == b.cvss
    ensures ObstacleProperties(a) == ObstacleProperties(b)
  {
  }

  /** A higher score never gives a smaller or lower-class obstacle. */
  lemma ClassGrowsWithScore(a: Vulnerability, b: Vulnerability)
    requires 0.0 < a.cvss <= b.cvss
    ensures ClassRank(ObstacleProperties(a).kind) <= ClassRank(ObstacleProperties(b).kind)
    ensures ObstacleProperties(a).width <= ObstacleProperties(b).width
  {
  }

  /** The severity label the collision message falls back on for a score. */
  function FallbackLabel(score: real): (name: string)
    ensures name == "Critical" <==> score >= 9.0
    ensures name == "High" <==> 7.0 <= score < 9.0
    ensures name == "Medium" <==> 4.0 <= score < 7.0
    ensures name == "Low" <==> score < 4.0
  {
    if score >= 9.0 then "Critical"
    else if score >= 7.0 then "High"
    else if score >= 4.0 then "Medium"
    else "Low"
  }

  /** The two severity tables of the game agree: the label the message
      derives from a positive score selects the same obstacle as the score. */
  lemma FallbackLabelMatchesScoreClass(v: Vulnerability)
    requires v.cvss > 0.0
    ensures ObstacleProperties(v.(severity := FallbackLabel(v.cvss), cvss := 0.0)) == ObstacleProperties(v)
  {
  }

  /* ---------------------------------------------------------------------
   * Lanes (startGame)
   * --------------------------------------------------------------------- */

  /** The rows of the road lanes, bottom to top. */
  const LaneRows: seq<int> := [18, 16, 14, 12, 10, 8, 6, 4]

  function LaneSpeed(i: int): real
  {
    0.5 + (i % 3) as real * 0.3
  }

  /** The lane layout in closed form: lane i is on row 18 - 2i, moves right
      for even i and left for odd i. */
  function LaneLayout(): (lanes: seq<Lane>)
    ensures |lanes| == |LaneRows|
  {
    seq(8, i requires 0 <= i < 8 => Lane(18 - 2 * i, 1 - 2 * (i % 2), LaneSpeed(i)))
  }

  predicate HasLane(lanes: seq<Lane>, row: int)
  {
    exists i :: 0 <= i < |lanes| && lanes[i].y == row
  }

  /** Lanes that obstacles can travel: moving one way or the other at a positive speed. */
  predicate WellFormedLanes(lanes: seq<Lane>)
  {
    forall i :: 0 <= i < |lanes| ==> lanes[i].speed > 0.0 && (lanes[i].direction == 1 || lanes[i].direction == -1)
  }

  /** The layout is exactly: a road on every even row from 18 up to 4, bottom
      lane moving right and directions alternating; rows 0-3 and 19 are free. */
  lemma {:induction false} LaneLayoutShape()
    ensures WellFormedLanes(LaneLayout())
    ensures forall i :: 0 <= i < 8 ==> LaneLayout()[i].y == LaneRows[i]
    ensures LaneLayout()[0].direction == 1
    ensures forall i :: 0 <= i < 7 ==> LaneLayout()[i + 1].direction == -LaneLayout()[i].direction
    ensures forall row :: 0 <= row < GameAreaHeight ==>
      (HasLane(LaneLayout(), row) <==> 4 <= row <= 18 && row % 2 == 0)
  {
    var lanes := LaneLayout();
    forall row | 0 <= row < GameAreaHeight
      ensures HasLane(lanes, row) <==> 4 <= row <= 18 && row % 2 == 0
    {
      if 4 <= row <= 18 && row % 2 == 0 {
        var i := (18 - row) / 2;
        assert lanes[i].y == row;
      }
    }
  }

  /** Below the top road there are never two free rows in a row. */
  lemma NoTwoFreeRowsBelowTopRoad(row: int)
    requires 5 <= row <= GameAreaHeight - 1
    ensures HasLane(LaneLayout(), row) || HasLane(LaneLayout(), row - 1)
  {
    LaneLayoutShape();
  }

  /* ---------------------------------------------------------------------
   * Obstacle placement (generateObstacles)
   * --------------------------------------------------------------------- */

  /** Obstacles sit closer together the more vulnerabilities there are. */
  function Spacing(total: int): (s: int)
    ensures s == 8 || s == 12 || s == 20
  {
    if total > 200 then 8 else if total > 100 then 12 else 20
  }

  lemma SpacingShrinksWithCount(a: int, b: int)
    requires a <= b
    ensures Spacing(b) <= Spacing(a)
  {
  }

  /* The float64 quantities of the placement (indices times 8, 12 or 20, lane
     offsets of 2, a jitter of 0.5 steps) are all multiples of 0.5 and exact,
     so they are held here as integers counting half cells, and math.Mod on
     them is Go's integer remainder. */

  /** The value amd64 gives Go's conversion of NaN to int; Go leaves it implementation-dependent. */
  const NaNAsInt: int := -0x8000_0000_0000_0000

  /** Twice the belt length of a lane: the obstacles each lane receives times the spacing. */
  function LoopHalves(total: nat, numLanes: nat): (l: int)
    requires numLanes > 0
    ensures l >= 0 && l % 2 == 0
    ensures l > 0 <==> total >= numLanes
  {
    (total / numLanes) * 2 * Spacing(total)
  }

  /** Twice the place of obstacle i along its lane's belt before wrapping: its
      index within the lane times the spacing, a per-lane stagger of 2 and a
      jitter of -1.5 to 1.5. */
  function BeltHalves(i: nat, total: nat, numLanes: nat): int
    requires numLanes > 0
  {
    (i / numLanes) * 2 * Spacing(total) + (i % numLanes) * 4 + ((i % 7) - 3)
  }

  /** The cell of obstacle i on its lane's belt: the belt position wrapped into
      [0, belt length) and truncated; None when the belt has length 0 and
      math.Mod yields NaN. */
  function BeltSlot(i: nat, total: nat, numLanes: nat): (r: Option<int>)
    requires numLanes > 0
    ensures total >= numLanes <==> r.Some?
    ensures r.Some? ==> 0 <= 2 * r.value < LoopHalves(total, numLanes)
  {
    var loop := LoopHalves(total, numLanes);
    if loop == 0 then None
    else
      var m := Rem(BeltHalves(i, total, numLanes), loop);
      Some(Quot(if m < 0 then m + loop else m, 2))
  }

  /** Where obstacle i starts: its belt cell, moved back by half the belt
      against its lane's direction (and from the right edge for left-moving lanes). */
  function StartX(i: nat, total: nat, numLanes: nat, direction: int, width: int): int
    requires numLanes > 0
  {
    var x := match BeltSlot(i, total, numLanes) case None => NaNAsInt case Some(s) => s;
    var half := Quot(LoopHalves(total, numLanes) / 2, 2);
    if direction > 0 then x - half else x + width - half
  }

  /** On a non-empty belt an obstacle starts within one belt length of the
      left edge, shifted back by half a belt: right-moving lanes fill
      [-L/2, L/2) and left-moving ones the same span from the right edge. */
  lemma StartWithinBelt(i: nat, total: nat, numLanes: nat, direction: int, width: int)
    requires numLanes > 0 && total >= numLanes
    ensures var l := LoopHalves(total, numLanes) / 2;
      var x := StartX(i, total, numLanes, direction, width) - (if direction > 0 then 0 else width);
      -(l / 2) <= x < l - l / 2
  {
  }

  /** The obstacle vulnerability i becomes: lane i mod the lane count, the
      class of the vulnerability, the lane's velocity scaled by the class. */
  function ObstacleFor(vulns: seq<Vulnerability>, lanes: seq<Lane>, width: int, i: nat): Obstacle
    requires |lanes| > 0 && i < |vulns|
  {
    var lane := lanes[i % |lanes|];
    var props := ObstacleProperties(vulns[i]);
    Obstacle(
      Position(StartX(i, |vulns|, |lanes|, lane.direction, width), lane.y),
      props.width,
      lane.speed * props.speedMultiplier * lane.direction as real,
      vulns[i].id,
      vulns[i].cvss,
      vulns[i].severity)
  }

  /** The obstacle field: exactly one obstacle per vulnerability, spread round
      robin over the lanes and carrying its vulnerability's identity; none at all
      when there is no lane. */
  function ObstacleField(vulns: seq<Vulnerability>, lanes: seq<Lane>, width: int): (obs: seq<Obstacle>)
    ensures |obs| == (if |lanes| == 0 then 0 else |vulns|)
    ensures forall i :: 0 <= i < |obs| ==>
      && obs[i].pos.y == lanes[i % |lanes|].y
      && obs[i].cveId == vulns[i].id
      && obs[i].severity == vulns[i].cvss
      && obs[i].severityLabel == vulns[i].severity
      && obs[i].width == ObstacleProperties(vulns[i]).width
      && 1 <= obs[i].width <= 2
  {
    if |lanes| == 0 then []
    else seq(|vulns|, i requires 0 <= i < |vulns| => ObstacleFor(vulns, lanes, width, i))
  }

  /** Each obstacle moves the way its lane does, never standing still. */
  lemma ObstacleSpeedFollowsLane(vulns: seq<Vulnerability>, lanes: seq<Lane>, width: int)
    requires WellFormedLanes(lanes)
    ensures var obs := ObstacleField(vulns, lanes, width);
      forall i :: 0 <= i < |obs| ==>
        (obs[i].speed > 0.0 <==> lanes[i % |lanes|].direction == 1) &&
        (obs[i].speed < 0.0 <==> lanes[i % |lanes|].direction == -1)
  {
  }

  /* ---------------------------------------------------------------------
   * Decorative items (initializeDecorativeItems)
   * --------------------------------------------------------------------- */

  const DecorativeCount := 12

  const Palette: seq<Symbol> := [GreenHeart, Sparkles, GreenHeart, Star, GreenHeart, Sparkles]

  /** Decorative item i: spread over the width, on rows 1 to 12, and moved
      three rows down (mod 19, never onto row 0) when it would sit on the
      frog's row within two columns of it. */
  function DecorativeItemAt(i: nat, width: int, frog: Position): DecorativeItem
  {
    var x := Quot(i * width, 12) + (i % 3) - 1;
    var y := 1 + (i % (GameAreaHeight - 2));
    var y' :=
      if y == frog.y && x >= frog.x - 2 && x <= frog.x + 2 then
        var z := (y + 3) % (GameAreaHeight - 1);
        if z == 0 then 1 else z
      else y;
    DecorativeItem(x, y', Palette[i % |Palette|], 0.3 + (i % 3) as real * 0.2)
  }

  /** i*width/12 for i < 12 lies in [0, width - 1] on a non-empty screen. */
  lemma TwelfthBounds(i: nat, width: int)
    requires i < 12 && width > 0
    ensures 0 <= Quot(i * width, 12) <= width - 1
  {
  }

  /** The twelve decorative items: each on a row strictly between the finish
      line and the bottom row, within a column of the screen, and never on the
      frog's row within two columns of it. */
  function DecorativeLayout(width: int, frog: Position): (items: seq<DecorativeItem>)
    ensures |items| == DecorativeCount
    ensures forall k :: 0 <= k < |items| ==> 1 <= items[k].y <= GameAreaHeight - 2
    ensures forall k :: 0 <= k < |items| ==>
      !(items[k].y == frog.y && frog.x - 2 <= items[k].x <= frog.x + 2)
    ensures width > 0 ==> forall k :: 0 <= k < |items| ==> -1 <= items[k].x <= width
  {
    var items := seq(DecorativeCount, i requires 0 <= i < DecorativeCount => DecorativeItemAt(i, width, frog));
    assert forall k :: 0 <= k < |items| ==> items[k] == DecorativeItemAt(k, width, frog);
    if width > 0 then
      assert forall k :: 0 <= k < |items| ==> 0 <= Quot(k * width, 12) <= width - 1 by {
        forall k | 0 <= k < |items| ensures 0 <= Quot(k * width, 12) <= width - 1 {
          TwelfthBounds(k, width);
        }
      }
      items
    else
      items
  }

  /* ---------------------------------------------------------------------
   * Screen wrap and collisions (updateGame, checkCollision)
   * --------------------------------------------------------------------- */

  /** How far beyond a screen edge an obstacle may drift before it wraps. */
  const WrapMargin := 5

  /** The screen wrap of one obstacle: past the left margin it reappears at
      the right margin and vice versa. */
  function WrapX(x: int, obsWidth: int, screenWidth: int): (r: int)
    ensures -obsWidth - WrapMargin <= x <= screenWidth + WrapMargin ==> r == x
    ensures x < -obsWidth - WrapMargin ==> r == screenWidth + WrapMargin
    ensures x > screenWidth + WrapMargin && x >= -obsWidth - WrapMargin ==> r == -obsWidth - WrapMargin
    ensures obsWidth + screenWidth + 2 * WrapMargin >= 0 ==>
      -obsWidth - WrapMargin <= r <= screenWidth + WrapMargin
  {
    if x < -obsWidth - WrapMargin then screenWidth + WrapMargin
    else if x > screenWidth + WrapMargin then -obsWidth - WrapMargin
    else x
  }

  /** Wrapping twice is wrapping once. */
  lemma WrapIdempotent(x: int, obsWidth: int, screenWidth: int)
    requires obsWidth + screenWidth + 2 * WrapMargin >= 0
    ensures WrapX(WrapX(x, obsWidth, screenWidth), obsWidth, screenWidth) == WrapX(x, obsWidth, screenWidth)
  {
  }

  /** The obstacles after one tick's motion and wrap: only the horizontal
      position changes, to the moved position wrapped, and it ends within the
      wrap margins. */
  function Advanced(obstacles: seq<Obstacle>, motion: Motion, width: int): (r: seq<Obstacle>)
    ensures |r| == |obstacles|
    ensures forall i :: 0 <= i < |r| ==> r[i].pos.x == WrapX(motion(i, obstacles[i]), obstacles[i].width, width)
    ensures forall i :: 0 <= i < |r| ==> r[i] == obstacles[i].(pos := Position(r[i].pos.x, obstacles[i].pos.y))
    ensures forall i :: 0 <= i < |r| && obstacles[i].width + width + 2 * WrapMargin >= 0 ==>
      -obstacles[i].width - WrapMargin <= r[i].pos.x <= width + WrapMargin
  {
    var r := seq(|obstacles|, i requires 0 <= i < |obstacles| =>
      obstacles[i].(pos := obstacles[i].pos.(x := WrapX(motion(i, obstacles[i]), obstacles[i].width, width))));
    assert forall i :: 0 <= i < |r| ==> r[i].pos.x == WrapX(motion(i, obstacles[i]), obstacles[i].width, width);
    r
  }

  /** The decoration after one tick's floating: an item that floats more than
      two columns past the right edge re-enters at column -2; nothing else of
      an item changes but its position. */
  function Floated(items: seq<DecorativeItem>, drift: Drift, width: int): (r: seq<DecorativeItem>)
    ensures |r| == |items|
    ensures forall i :: 0 <= i < |r| ==> r[i] == items[i].(x := r[i].x, y := r[i].y)
    ensures forall i :: 0 <= i < |r| ==> r[i].y == drift(i, items[i]).y
    ensures forall i :: 0 <= i < |r| ==> r[i].x <= width + 2 || r[i].x == -2
    ensures forall i :: 0 <= i < |r| && drift(i, items[i]).x <= width + 2 ==> r[i].x == drift(i, items[i]).x
    ensures forall i :: 0 <= i < |r| && drift(i, items[i]).x > width + 2 ==> r[i].x == -2
  {
    var r := seq(|items|, i requires 0 <= i < |items| =>
      var p := drift(i, items[i]);
      items[i].(x := if p.x > width + 2 then -2 else p.x, y := p.y));
    assert forall i :: 0 <= i < |r| ==> r[i].y == drift(i, items[i]).y;
    assert forall i :: 0 <= i < |r| ==> r[i].x == (if drift(i, items[i]).x > width + 2 then -2 else drift(i, items[i]).x);
    r
  }

  /** The cells an obstacle covers: `width` cells from its position rightwards. */
  ghost function Cells(obs: Obstacle): seq<Position>
  {
    seq(if obs.width < 0 then 0 else obs.width, k => Position(obs.pos.x + k, obs.pos.y))
  }

  /** checkCollision: the frog is hit exactly when it stands on a cell the obstacle covers. */
  function CheckCollision(frog: Position, obs: Obstacle): (hit: bool)
    ensures hit <==> frog in Cells(obs)
  {
    if frog.y != obs.pos.y then false
    else
      var hit := frog.x >= obs.pos.x && frog.x < obs.pos.x + obs.width;
      assert hit ==> Cells(obs)[frog.x - obs.pos.x] == frog;
      hit
  }

  /** The index of the first obstacle in list order that hits the frog. */
  function FirstCollision(frog: Position, obstacles: seq<Obstacle>): (k: Option<nat>)
    ensures k.Some? ==> (k.value < |obstacles| && CheckCollision(frog, obstacles[k.value]) &&
      forall j :: 0 <= j < k.value ==> !CheckCollision(frog, obstacles[j]))
    ensures k.None? ==> forall j :: 0 <= j < |obstacles| ==> !CheckCollision(frog, obstacles[j])
  {
    if obstacles == [] then None
    else if CheckCollision(frog, obstacles[0]) then Some(0)
    else match FirstCollision(frog, obstacles[1..])
      case None => None
      case Some(j) => Some(j + 1)
  }

  /* ---------------------------------------------------------------------
   * Collision message (getVulnerabilityURL, FormatCollisionMessageParts)
   * --------------------------------------------------------------------- */

  const NvdBase := "https://nvd.nist.gov/vuln/detail/"
  const GhsaBase := "https://github.com/advisories/"

  /** The advisory page of a CVE or GHSA id; "" for any other id. */
  function VulnerabilityUrl(id: string): (url: string)
    ensures "CVE-" <= id ==> url == NvdBase + id
    ensures "GHSA-" <= id ==> url == GhsaBase + id
    ensures url != "" <==> ("CVE-" <= id || "GHSA-" <= id)
    ensures url != "" ==> |id| <= |url| && url[|url| - |id|..] == id
    ensures url != "" ==> NvdBase <= url || GhsaBase <= url
  {
    assert "CVE-" <= id ==> id[0] == 'C';
    assert "GHSA-" <= id ==> id[0] == 'G';
    if "CVE-" <= id then NvdBase + id
    else if "GHSA-" <= id then GhsaBase + id
    else ""
  }

  /** The severity the message shows: the obstacle's own label, or the label
      its score falls in when it has none. */
  function SeverityLabel(obs: Obstacle): (name: string)
    ensures name != ""
    ensures obs.severityLabel != "" ==> name == obs.severityLabel
    ensures obs.severityLabel == "" ==> name == FallbackLabel(obs.severity)
  {
    if obs.severityLabel == "" then FallbackLabel(obs.severity) else obs.severityLabel
  }

  const HitPrefix := "You were hit by "

  /** FormatCollisionMessageParts: the id (linked when it names an advisory),
      the severity label, and the score only when it is positive. */
  function FormatCollisionMessageParts(obs: Obstacle): (parts: CollisionMessageParts)
    ensures parts.prefix == HitPrefix
    ensures parts.vulnId.id == obs.cveId
    ensures parts.vulnId.LinkedId? <==> VulnerabilityUrl(obs.cveId) != ""
    ensures parts.suffix.WithScore? <==> obs.severity > 0.0
    ensures parts.vulnId.LinkedId? ==> parts.vulnId.url == VulnerabilityUrl(obs.cveId)
    ensures parts.suffix.WithScore? ==> parts.suffix.score == obs.severity
    ensures parts.suffix.severity == SeverityLabel(obs)
    ensures parts.suffix.severity != ""
    ensures obs.severityLabel != "" ==> parts.suffix.severity == obs.severityLabel
  {
    var severity := SeverityLabel(obs);
    var url := VulnerabilityUrl(obs.cveId);
    CollisionMessageParts(
      HitPrefix,
      if url != "" then LinkedId(obs.cveId, url) else PlainId(obs.cveId),
      if obs.severity > 0.0 then WithScore(severity, obs.severity) else LabelOnly(severity))
  }

  /** The collision messages of the game's own examples: a labelled CVE with
      a score, a labelled CVE without one, an unlabelled 9.5 that shows as
      Critical, and a GHSA id linked to its advisory page. */
  lemma CollisionMessageExamples()
    ensures FormatCollisionMessageParts(Obstacle(Position(0, 0), 1, 1.0, "CVE-2021-12345", 8.5, "High")) ==
      CollisionMessageParts(HitPrefix, LinkedId("CVE-2021-12345", NvdBase + "CVE-2021-12345"), WithScore("High", 8.5))
    ensures FormatCollisionMessageParts(Obstacle(Position(0, 0), 1, 1.0, "CVE-2021-12345", 0.0, "Medium")) ==
      CollisionMessageParts(HitPrefix, LinkedId("CVE-2021-12345", NvdBase + "CVE-2021-12345"), LabelOnly("Medium"))
    ensures FormatCollisionMessageParts(Obstacle(Position(0, 0), 1, 1.0, "CVE-2021-12345", 9.5, "")) ==
      CollisionMessageParts(HitPrefix, LinkedId("CVE-2021-12345", NvdBase + "CVE-2021-12345"), WithScore("Critical", 9.5))
    ensures FormatCollisionMessageParts(Obstacle(Position(0, 0), 1, 1.0, "GHSA-abcd-efgh-ijkl", 7.2, "High")) ==
      CollisionMessageParts(HitPrefix, LinkedId("GHSA-abcd-efgh-ijkl", GhsaBase + "GHSA-abcd-efgh-ijkl"), WithScore("High", 7.2))
  {
  }
}
