/**
 The player entity and its per-frame integration step `Object.update`
 (js/index.js:54-100), without the drawing it does first.
 */
module Physics {
  import opened Config

  datatype Vec = Vec(x: real, y: real)

  /** A rectangle with its top-left corner at `pos`; y grows downwards. */
  datatype Entity = Entity(
    name: string,
    pos: Vec,
    velocity: Vec,
    width: real,
    height: real,
    color: string,
    isFalling: bool)

  /** The ground test of `update`: the rectangle's bottom edge at `y` reaches the ground. */
  predicate Touches(y: real, height: real, groundLevel: real) {
    y + height >= groundLevel
  }

  /** One frame of `update`: move by the velocity, zero the vertical speed on
      ground contact or else add gravity, derive `isFalling` from the same test,
      then clamp x to the map and y to its top. */
  function Step(e: Entity, groundLevel: real): (r: Entity)
    // horizontal: moved by the old velocity, then kept on the map
    ensures 0.0 <= r.pos.x <= MapWidth
    ensures var x := e.pos.x + e.velocity.x;
            && (0.0 <= x <= MapWidth ==> r.pos.x == x)
            && (x < 0.0 ==> r.pos.x == 0.0)
            && (x > MapWidth ==> r.pos.x == MapWidth)
    // vertical: moved by the old velocity, only the top is a hard limit
    ensures 0.0 <= r.pos.y
    ensures var y := e.pos.y + e.velocity.y;
            && (y >= 0.0 ==> r.pos.y == y)
            && (y < 0.0 ==> r.pos.y == 0.0)
    // ground contact is judged on the moved, not yet clamped, position
    ensures var y := e.pos.y + e.velocity.y;
            && (Touches(y, e.height, groundLevel) ==> r.velocity.y == 0.0)
            && (!Touches(y, e.height, groundLevel) ==> r.velocity.y == e.velocity.y + Gravity)
            && (r.isFalling <==> !Touches(y, e.height, groundLevel))
    // nothing else changes
    ensures r.velocity.x == e.velocity.x
    ensures r.name == e.name && r.width == e.width && r.height == e.height && r.color == e.color
  {
    var moved := e.(pos := Vec(e.pos.x + e.velocity.x, e.pos.y + e.velocity.y));
    var vy := if moved.pos.y + moved.height >= groundLevel then 0.0 else moved.velocity.y + Gravity;
    var falling := if moved.pos.y + moved.height >= groundLevel then false else true;
    var x := if moved.pos.x < 0.0 then 0.0 else if moved.pos.x > MapWidth then MapWidth else moved.pos.x;
    var y := if moved.pos.y < 0.0 then 0.0 else moved.pos.y;
    moved.(pos := Vec(x, y), velocity := Vec(moved.velocity.x, vy), isFalling := falling)
  }

  /** The entity after `n` frames with no input. */
  function Steps(e: Entity, groundLevel: real, n: nat): Entity
    decreases n
  {
    if n == 0 then e else Steps(Step(e, groundLevel), groundLevel, n - 1)
  }

  /** An entity that starts a frame on the ground (its bottom at or below the
      ground line) ends it with vertical speed 0, or, if its upward speed lifted
      it off, with that speed plus gravity. */
  lemma GroundedStep(e: Entity, groundLevel: real)
    requires Touches(e.pos.y, e.height, groundLevel)
    ensures var r := Step(e, groundLevel);
            r.velocity.y == 0.0 || (e.velocity.y < 0.0 && r.velocity.y == e.velocity.y + Gravity)
  {
  }

  /** Resting is stable: an entity at rest on or below the ground line stays
      exactly where it is. Nothing pulls an entity that sank below the line
      back up, since only its speed is zeroed. */
  lemma {:induction false} RestingStaysPut(e: Entity, groundLevel: real, n: nat)
    requires e.velocity.y == 0.0 && 0.0 <= e.pos.y && Touches(e.pos.y, e.height, groundLevel)
    requires 0.0 <= e.pos.x <= MapWidth && e.velocity.x == 0.0
    ensures Steps(e, groundLevel, n + 1) == e.(isFalling := false)
    decreases n
  {
    if n > 0 {
      RestingStaysPut(e.(isFalling := false), groundLevel, n - 1);
    }
  }

  /** The bottom edge can end up below the ground line: landing fast from
      above leaves the entity where the last move put it. */
  lemma SinksBelowGround()
    ensures var e := Entity("p", Vec(0.0, 100.0), Vec(0.0, 50.0), 75.0, 200.0, "white", true);
            var r := Step(e, 250.0);
            r.pos.y + r.height > 250.0 && r.velocity.y == 0.0 && !r.isFalling
  {
  }

  /** Whatever its speed and wherever it is, an entity left alone lands: after
      some frame it is no longer falling. */
  lemma EventuallyLands(e: Entity, groundLevel: real)
    ensures exists n: nat :: 1 <= n && !Steps(e, groundLevel, n).isFalling
  {
    GravityIsOne();
    var k := 1.0 - e.velocity.y;
    LandsAfterRising(e, groundLevel, if k < 0.0 then 0 else k.Floor + 1);
  }

  /** Rising phase: gravity raises the vertical speed by one per frame until the
      entity moves downwards by at least one unit per frame. */
  lemma {:induction false} LandsAfterRising(e: Entity, groundLevel: real, k: nat)
    requires 1.0 - e.velocity.y < k as real
    ensures exists n: nat :: 1 <= n && !Steps(e, groundLevel, n).isFalling
    decreases k
  {
    GravityIsOne();
    if e.velocity.y >= 1.0 {
      var d := groundLevel - e.pos.y - e.height - e.velocity.y;
      LandsAfterDescending(e, groundLevel, if d < 0.0 then 0 else d.Floor + 1);
    } else {
      var s := Step(e, groundLevel);
      assert Steps(e, groundLevel, 1) == s;
      if s.isFalling {
        LandsAfterRising(s, groundLevel, k - 1);
        var n: nat :| 1 <= n && !Steps(s, groundLevel, n).isFalling;
        assert Steps(e, groundLevel, n + 1) == Steps(s, groundLevel, n);
      }
    }
  }

  /** Falling phase: moving down by at least one unit per frame, the bottom
      edge closes the gap to the ground by at least two units per frame. */
  lemma {:induction false} LandsAfterDescending(e: Entity, groundLevel: real, k: nat)
    requires e.velocity.y >= 1.0
    requires groundLevel - e.pos.y - e.height - e.velocity.y < k as real
    ensures exists n: nat :: 1 <= n && !Steps(e, groundLevel, n).isFalling
    decreases k
  {
    GravityIsOne();
    var s := Step(e, groundLevel);
    assert Steps(e, groundLevel, 1) == s;
    if s.isFalling {
      LandsAfterDescending(s, groundLevel, k - 1);
      var n: nat :| 1 <= n && !Steps(s, groundLevel, n).isFalling;
      assert Steps(e, groundLevel, n + 1) == Steps(s, groundLevel, n);
    }
  }
}
