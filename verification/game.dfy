/** The simulation state of the Spikes game and the operations that change it
    once per tick (update), on a click (jump) and on death (reset), together
    with the rejection-sampling spike layout run on every wall bounce.
    Math.random() is an oracle: the game holds the sequence of values it will
    return, each in [0, 1), and consumes them in order. */
module SpikesGame {
  import opened SpikeGeometry

  const LeftAnchor: real := 0.0
  const RightAnchor: real := CanvasWidth - SpikeWidth * 2.0

  /** Values Math.random() may return. */
  predicate Samples(rs: seq<real>)
  {
    forall k :: 0 <= k < |rs| ==> 0.0 <= rs[k] < 1.0
  }

  // ---------------------------------------------------------------------
  // The spike count: a real in [1, 6) compared against a loop counter
  // ---------------------------------------------------------------------

  /** How many times `for (i = 0; i < c; i++)` runs for a real bound c:
      the least natural number not below c. */
  function LoopCount(c: real): (n: nat)
    requires c >= 0.0
    ensures c <= n as real
    ensures n == 0 || (n - 1) as real < c
  {
    if c.Floor as real == c then c.Floor else c.Floor + 1
  }

  /** The count LoopCount gives is the only one with those two properties. */
  lemma LoopCountUnique(c: real, n: nat)
    requires c >= 0.0 && c <= n as real && (n == 0 || (n - 1) as real < c)
    ensures n == LoopCount(c)
  {
  }

  /** The count is never floored, so a sample r gives 1 + 5r in [1, 6) and
      the loop places between 1 and 6 spikes. */
  lemma SpikeCountRange(r: real)
    requires 0.0 <= r < 1.0
    ensures 1 <= LoopCount(r * 5.0 + 1.0) <= 6
  {
  }

  /** A single spike occurs for the one sample r = 0 only: any r in (0, 0.2]
      already gives a bound in (1, 2] and so two spikes. */
  lemma OneSpikeOnlyAtZero(r: real)
    requires 0.0 <= r < 1.0
    ensures LoopCount(r * 5.0 + 1.0) == 1 <==> r == 0.0
  {
  }

  /** Six spikes occur: any sample above 0.8 gives a bound in (5, 6). */
  lemma SixSpikesAboveFourFifths(r: real)
    requires 0.8 < r < 1.0
    ensures LoopCount(r * 5.0 + 1.0) == 6
  {
  }

  // ---------------------------------------------------------------------
  // Spike layouts
  // ---------------------------------------------------------------------

  /** A spike the generator may produce for this anchor: built by the spike
      constructor from the anchor and a height (1 + 14 r) * SpikeHeight. */
  predicate Placed(s: Spike, anchor: real)
  {
    s == MakeSpike(anchor, s.y) && SpikeHeight <= s.y < 15.0 * SpikeHeight
  }

  /** Every spike is placed at the anchor and was not rejected by the overlap
      scan against the spikes before it. */
  predicate Layout(spikes: seq<Spike>, anchor: real)
  {
    forall i :: 0 <= i < |spikes| ==> Placed(spikes[i], anchor) && !OverlapsAny(spikes[..i], spikes[i].y)
  }

  /** In a layout any two spikes are at the very same height or at least one
      spike height apart: the only overlap let through is an exact repeat. */
  lemma LayoutSeparated(spikes: seq<Spike>, anchor: real, i: int, j: int)
    requires Layout(spikes, anchor)
    requires 0 <= i < j < |spikes|
    ensures spikes[i].y == spikes[j].y || Abs(spikes[i].y - spikes[j].y) >= SpikeHeight
  {
  }

  // ---------------------------------------------------------------------
  // The rejection sampler as a function of the oracle values
  // ---------------------------------------------------------------------

  /** The candidate height a sample r gives: (1 + 14 r) * SpikeHeight. */
  function Height(r: real): real
  {
    (r * 14.0 + 1.0) * SpikeHeight
  }

  /** The outcome of placing spikes: the spikes, the oracle values left over,
      and whether all requested spikes were placed before the values ran out. */
  datatype Filled = Filled(spikes: seq<Spike>, rest: seq<real>, complete: bool)

  /** Places n more spikes after `placed`, taking oracle values in order: a
      value whose height clashes with the spikes placed so far is dropped and
      the next one is tried; one that does not clash becomes a spike at the
      anchor. */
  function Fill(anchor: real, placed: seq<Spike>, n: nat, rs: seq<real>): Filled
    decreases |rs|
  {
    if n == 0 then Filled(placed, rs, true)
    else if rs == [] then Filled(placed, [], false)
    else if OverlapsAny(placed, Height(rs[0])) then Fill(anchor, placed, n, rs[1..])
    else Fill(anchor, placed + [MakeSpike(anchor, Height(rs[0]))], n - 1, rs[1..])
  }

  /** Filling extends what was placed, consumes a prefix of the values, and
      places exactly n spikes unless the values run out first. */
  lemma {:induction false} FillShape(anchor: real, placed: seq<Spike>, n: nat, rs: seq<real>)
    ensures var d := Fill(anchor, placed, n, rs);
            |placed| <= |d.spikes| && d.spikes[..|placed|] == placed &&
            |d.rest| <= |rs| && d.rest == rs[|rs| - |d.rest|..] &&
            (d.complete ==> |d.spikes| == |placed| + n) &&
            (!d.complete ==> |d.spikes| < |placed| + n && d.rest == [])
    decreases |rs|
  {
    if n == 0 || rs == [] {
    } else if OverlapsAny(placed, Height(rs[0])) {
      FillShape(anchor, placed, n, rs[1..]);
    } else {
      var more := placed + [MakeSpike(anchor, Height(rs[0]))];
      FillShape(anchor, more, n - 1, rs[1..]);
      var d := Fill(anchor, more, n - 1, rs[1..]);
      assert d.spikes[..|placed|] == d.spikes[..|more|][..|placed|];
    }
  }

  /** Filling from samples in [0, 1) keeps a layout a layout. */
  lemma {:induction false} FillLayout(anchor: real, placed: seq<Spike>, n: nat, rs: seq<real>)
    requires Layout(placed, anchor) && Samples(rs)
    ensures Layout(Fill(anchor, placed, n, rs).spikes, anchor)
    decreases |rs|
  {
    if n == 0 || rs == [] {
    } else if OverlapsAny(placed, Height(rs[0])) {
      FillLayout(anchor, placed, n, rs[1..]);
    } else {
      var s := MakeSpike(anchor, Height(rs[0]));
      var more := placed + [s];
      assert more[..|placed|] == placed;
      forall i | 0 <= i < |more|
        ensures Placed(more[i], anchor) && !OverlapsAny(more[..i], more[i].y)
      {
        if i < |placed| {
          assert more[..i] == placed[..i];
        }
      }
      FillLayout(anchor, more, n - 1, rs[1..]);
    }
  }

  /** The collision test finds every ball of radius 20 whose centre is inside
      a spike of any layout, for both anchors the game uses. */
  lemma LayoutCollidesWhenInside(spikes: seq<Spike>, anchor: real, i: int, px: real, py: real)
    requires anchor == LeftAnchor || anchor == RightAnchor
    requires Layout(spikes, anchor)
    requires 0 <= i < |spikes| && InTriangle(spikes[i], px, py)
    ensures CollidesAny(spikes, px, py, 20.0)
  {
    CollidesWhenCentreInside(spikes, i, px, py);
  }

  /** The body of the collision scan for one spike: each vertex within the
      ball's radius in turn, then the three cross-products of the
      inside-triangle test. */
  method SpikeHit(s: Spike, px: real, py: real, r: real) returns (hit: bool)
    ensures hit == HitsSpike(s, px, py, r)
  {
    var c1x, c1y := px - s.v1.x, py - s.v1.y;
    if SquareGap(c1x, c1y, r) <= 0.0 {
      return true;
    }
    var c2x, c2y := px - s.v2.x, py - s.v2.y;
    if SquareGap(c2x, c2y, r) <= 0.0 {
      return true;
    }
    var c3x, c3y := px - s.v3.x, py - s.v3.y;
    if SquareGap(c3x, c3y, r) <= 0.0 {
      return true;
    }
    var e1x, e1y := s.v2.x - s.v1.x, s.v2.y - s.v1.y;
    var e2x, e2y := s.v3.x - s.v2.x, s.v3.y - s.v2.y;
    var e3x, e3y := s.v1.x - s.v3.x, s.v1.y - s.v3.y;
    hit := Cross(e1x, e1y, c1x, c1y) >= 0.0 && Cross(e2x, e2y, c2x, c2y) >= 0.0 && Cross(e3x, e3y, c3x, c3y) >= 0.0;
  }

  /** A ball of radius 20 more than 40 to the right of the left wall touches
      no spike of a left layout: every vertex is at x <= 20 and the sign test
      never fires for the anchor 0. In particular a bounce off the right wall
      cannot be followed by a death on the freshly generated spikes. */
  lemma ClearOfLeftLayout(spikes: seq<Spike>, px: real, py: real)
    requires Layout(spikes, LeftAnchor)
    requires px > 2.0 * SpikeWidth
    ensures !CollidesAny(spikes, px, py, 20.0)
  {
    forall i | 0 <= i < |spikes|
      ensures !HitsSpike(spikes[i], px, py, 20.0)
    {
      var s := spikes[i];
      LeftSignTestNeverFires(LeftAnchor, s.y, px, py);
      OutsideByWidth(s.v1, px, py, 20.0);
      OutsideByWidth(s.v2, px, py, 20.0);
      OutsideByWidth(s.v3, px, py, 20.0);
    }
  }

  // ---------------------------------------------------------------------
  // The state
  // ---------------------------------------------------------------------

  /** The ball. Its fields change every tick; radius, jump force and gravity
      never do. */
  class Player {
    var x: real
    var y: real
    const radius: real := 20.0
    var velX: real
    var velY: real
    const jumpForce: real := 10.0
    const gravity: real := 0.5

    constructor ()
      ensures x == CanvasWidth / 2.0 && y == CanvasHeight / 2.0
      ensures velX == 5.0 && velY == 2.0
    {
      x, y := CanvasWidth / 2.0, CanvasHeight / 2.0;
      velX, velY := 5.0, 2.0;
    }
  }

  /** The game's module-level state: the ball, the spikes on screen, the
      score, the anchor and last candidate height of the spike generator, the
      last spike count drawn, and the values Math.random() has yet to return. */
  class Game {
    const player: Player
    var spikes: seq<Spike>
    var score: int
    var spikeX: real
    var spikeY: real
    var spikeCount: real
    var random: seq<real>

    /** The invariant every operation keeps: the score is never negative, the
        horizontal speed is always 5, the spikes on screen form a layout for
        the current anchor, which is one of the two the game uses. */
    ghost predicate Valid()
      reads this, player
    {
      score >= 0 &&
      (player.velX == 5.0 || player.velX == -5.0) &&
      (spikeX == LeftAnchor || spikeX == RightAnchor) &&
      Layout(spikes, spikeX) &&
      Samples(random)
    }

    /** The state at load time; the generator's anchor starts at 0 and the
        spike count at 0. */
    constructor (rs: seq<real>)
      requires Samples(rs)
      ensures Valid() && fresh(player)
      ensures player.x == CanvasWidth / 2.0 && player.y == CanvasHeight / 2.0
      ensures player.velX == 5.0 && player.velY == 2.0
      ensures spikes == [] && score == 0 && random == rs
    {
      player := new Player();
      spikes, score := [], 0;
      spikeX, spikeY, spikeCount := LeftAnchor, 0.0, 0.0;
      random := rs;
    }

    /** Math.random(): the next value of the oracle, or nothing when the
        supplied values have run out. */
    method NextRandom() returns (r: real, ok: bool)
      modifies this`random
      ensures ok == (old(random) != [])
      ensures ok ==> r == old(random)[0] && random == old(random)[1..]
      ensures !ok ==> random == old(random)
    {
      if random == [] {
        return 0.0, false;
      }
      r, ok := random[0], true;
      random := random[1..];
    }

    /** The overlap scan: does the candidate height spikeY clash with a spike
        already on screen? */
    method Overlaps() returns (clash: bool)
      ensures clash == OverlapsAny(spikes, spikeY)
    {
      for i := 0 to |spikes|
        invariant !OverlapsAny(spikes[..i], spikeY)
      {
        if (spikes[i].y < spikeY && spikes[i].y + SpikeHeight > spikeY)
          || (spikes[i].y < spikeY + SpikeHeight && spikes[i].y > spikeY)
        {
          return true;
        }
        assert spikes[..i + 1] == spikes[..i] + [spikes[i]];
      }
      assert spikes[..|spikes|] == spikes;
      return false;
    }

    /** The collision scan over the spikes on screen, one spike at a time. */
    method Collides() returns (hit: bool)
      ensures hit == CollidesAny(spikes, player.x, player.y, player.radius)
    {
      var px, py, r := player.x, player.y, player.radius;
      for i := 0 to |spikes|
        invariant !CollidesAny(spikes[..i], px, py, r)
      {
        hit := SpikeHit(spikes[i], px, py, r);
        if hit {
          return;
        }
        assert spikes[..i + 1] == spikes[..i] + [spikes[i]];
      }
      assert spikes[..|spikes|] == spikes;
      return false;
    }

    /** Lays out a fresh set of spikes at spikeX: empties the set, draws the
        count 1 + 5r, and for each spike draws heights (1 + 14r) * SpikeHeight
        until one passes the overlap scan. `complete` is false when the oracle
        runs out first; the spikes accepted until then are kept. */
    method GenerateSpikes() returns (complete: bool)
      requires spikeX == LeftAnchor || spikeX == RightAnchor
      requires Samples(random)
      modifies this`spikes, this`spikeY, this`spikeCount, this`random
      ensures old(random) == [] ==> spikes == [] && !complete && random == [] && spikeCount == old(spikeCount)
      ensures old(random) != [] ==>
                spikeCount == old(random)[0] * 5.0 + 1.0 &&
                Filled(spikes, random, complete) == Fill(spikeX, [], LoopCount(spikeCount), old(random)[1..])
      ensures Samples(random) && |random| <= |old(random)|
      ensures Layout(spikes, spikeX)
      ensures complete ==> 1 <= |spikes| <= 6 && spikeY == spikes[|spikes| - 1].y
      ensures !complete ==> random == [] && |spikes| < 6
    {
      ghost var rs := random;
      spikes := [];
      var r, ok := NextRandom();
      if !ok {
        return false;
      }
      spikeCount := r * 5.0 + 1.0;
      ghost var n := LoopCount(spikeCount);
      ghost var target := Fill(spikeX, [], n, rs[1..]);
      var i := 0;
      while (i as real) < spikeCount
        invariant 0 <= i <= n && i == |spikes|
        invariant spikeCount == rs[0] * 5.0 + 1.0
        invariant i == 0 || ((i - 1) as real) < spikeCount
        invariant Fill(spikeX, spikes, n - i, random) == target
        invariant |spikes| > 0 ==> spikeY == spikes[|spikes| - 1].y
        decreases n - i
      {
        assert i < n;
        var clash := true;
        while clash
          invariant clash ==> Fill(spikeX, spikes, n - i, random) == target
          invariant !clash ==> Fill(spikeX, spikes + [MakeSpike(spikeX, spikeY)], n - i - 1, random) == target
          modifies this`random, this`spikeY
          decreases |random|
        {
          ghost var before := random;
          r, ok := NextRandom();
          if !ok {
            break;
          }
          spikeY := (r * 14.0 + 1.0) * SpikeHeight;
          clash := Overlaps();
          assert Height(before[0]) == spikeY;
          assert Fill(spikeX, spikes, n - i, before) ==
            if clash then Fill(spikeX, spikes, n - i, random)
            else Fill(spikeX, spikes + [MakeSpike(spikeX, spikeY)], n - i - 1, random);
        }
        if clash {
          // the oracle ran out while looking for this spike's height
          complete := false;
          assert Fill(spikeX, spikes, n - i, random) == Filled(spikes, [], false);
          FillShape(spikeX, [], n, rs[1..]);
          FillLayout(spikeX, [], n, rs[1..]);
          return;
        }
        spikes := spikes + [MakeSpike(spikeX, spikeY)];
        i := i + 1;
      }
      LoopCountUnique(spikeCount, i);
      complete := true;
      FillShape(spikeX, [], n, rs[1..]);
      FillLayout(spikeX, [], n, rs[1..]);
    }

    /** A click: the ball's vertical velocity becomes -jumpForce at once,
        whatever it was; nothing else changes. */
    method Jump()
      requires Valid()
      modifies player`velY
      ensures player.velY == -player.jumpForce
      ensures Valid()
    {
      player.velY := -player.jumpForce;
    }

    /** Death: the ball back at the centre with its initial velocities, no
        spikes, a zero count and a zero score. */
    method ResetGame()
      requires Valid()
      modifies player`x, player`y, player`velX, player`velY, this`spikeCount, this`spikes, this`score
      ensures player.x == CanvasWidth / 2.0 && player.y == CanvasHeight / 2.0
      ensures player.velX == 5.0 && player.velY == 2.0
      ensures spikeCount == 0.0 && spikes == [] && score == 0
      ensures Valid()
    {
      player.x := CanvasWidth / 2.0;
      player.y := CanvasHeight / 2.0;
      player.velX := 5.0;
      player.velY := 2.0;
      spikeCount := 0.0;
      spikes := [];
      score := 0;
    }

    /** One tick. The ball moves by its velocity from before gravity, then
        gravity is added. A horizontal crossing (bounced) reverses velX,
        scores a point, moves the anchor to the wall opposite the ball and
        regenerates the spikes. Then a vertical crossing, or a collision with
        the spikes now on screen (`checked`), is a death and resets the game,
        even right after a bounce. */
    method Update() returns (bounced: bool, died: bool, complete: bool, ghost checked: seq<Spike>)
      requires Valid()
      modifies this, player
      ensures Valid()
      ensures var nx := old(player.x) + old(player.velX);
              bounced == (nx + player.radius > CanvasWidth || nx - player.radius < 0.0)
      ensures !bounced ==> checked == old(spikes) && spikeX == old(spikeX) && random == old(random) && complete
      ensures bounced ==> spikeX == (if old(player.x) + old(player.velX) > CanvasWidth / 2.0 then LeftAnchor else RightAnchor)
      ensures bounced ==> Layout(checked, spikeX) && |random| <= |old(random)|
      ensures bounced && complete ==> 1 <= |checked| <= 6 && spikeY == checked[|checked| - 1].y
      ensures bounced && old(random) == [] ==> checked == [] && !complete && random == []
      ensures bounced && old(random) != [] ==>
                Filled(checked, random, complete) ==
                Fill(spikeX, [], LoopCount(old(random)[0] * 5.0 + 1.0), old(random)[1..])
      ensures !bounced ==> spikeY == old(spikeY)
      ensures died ==> spikeCount == 0.0
      ensures !died ==> spikeCount == (if bounced && old(random) != [] then old(random)[0] * 5.0 + 1.0
                                       else old(spikeCount))
      ensures var ny := old(player.y) + old(player.velY);
              died == (ny + player.radius > CanvasHeight || ny - player.radius < 0.0 ||
                       CollidesAny(checked, old(player.x) + old(player.velX), ny, player.radius))
      ensures died ==> player.x == CanvasWidth / 2.0 && player.y == CanvasHeight / 2.0 &&
                       player.velX == 5.0 && player.velY == 2.0 && spikes == [] && score == 0
      ensures !died ==> player.x == old(player.x) + old(player.velX) &&
                        player.y == old(player.y) + old(player.velY) &&
                        player.velY == old(player.velY) + player.gravity &&
                        player.velX == (if bounced then -old(player.velX) else old(player.velX)) &&
                        score == (if bounced then old(score) + 1 else old(score)) &&
                        spikes == checked
    {
      player.x := player.x + player.velX;
      player.y := player.y + player.velY;
      player.velY := player.velY + player.gravity;

      complete := true;
      bounced := player.x + player.radius > CanvasWidth || player.x - player.radius < 0.0;
      if bounced {
        player.velX := player.velX * -1.0;
        score := score + 1;
        if player.x > CanvasWidth / 2.0 {
          spikeX := LeftAnchor;
        } else {
          spikeX := RightAnchor;
        }
        complete := GenerateSpikes();
      }
      checked := spikes;

      died := player.y + player.radius > CanvasHeight || player.y - player.radius < 0.0;
      if !died {
        died := Collides();
      }
      if died {
        ResetGame();
      }
    }
  }

  /** A client of the contracts above: whatever the oracle holds, a ball about
      to cross the right wall bounces and scores, and does not die on the
      spikes generated meanwhile. */
  method ExampleBounce(rs: seq<real>)
    requires Samples(rs)
  {
    var g := new Game(rs);
    g.player.x := 510.0;
    g.score := 7;
    var bounced, died, complete, checked := g.Update();
    assert bounced && g.spikeX == LeftAnchor && Layout(checked, LeftAnchor);
    ClearOfLeftLayout(checked, 515.0, 252.0);
    assert !died;
    assert g.score == 8 && g.player.velX == -5.0;
  }

  /** A ball about to cross the floor dies and the score returns to 0; a jump
      then sets the vertical velocity outright. */
  method ExampleDeathAndJump()
  {
    var g := new Game([]);
    g.player.x, g.player.y := 250.0, 490.0;
    g.score := 3;
    var bounced, died, complete, checked := g.Update();
    assert !bounced && died;
    assert g.score == 0 && g.spikes == [] && g.player.x == 250.0 && g.player.velY == 2.0;
    g.player.velY := 3.0;
    g.Jump();
    assert g.player.velY == -10.0;
  }

  /** A ball crossing the right wall and the floor in one tick bounces and
      still dies. */
  method ExampleBounceAndDie()
  {
    var g := new Game([0.0, 0.5]);
    g.player.x, g.player.y := 490.0, 485.0;
    g.score := 4;
    var bounced, died, complete, checked := g.Update();
    assert bounced && died && g.score == 0;
  }
}
