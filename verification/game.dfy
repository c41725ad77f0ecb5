/**
 The frame driver `animate` (js/index.js:157-215), the start-up objects
 (js/index.js:133-155) and the key events, as one state machine over the whole
 game. The two `setTimeout` callbacks become pending effects: a frame appends
 them, and a separate `Fire` event applies any one of them later, in any order.
 */
module Game {
  import opened Config
  import opened FrameRate
  import opened Physics
  import opened Nametag
  import opened Input
  import opened Movement

  /** A deferred `setTimeout` callback of `animate`. */
  datatype Effect =
    | SetSpeedX(speed: real)  // `player.velocity.x = ±PLAYER_MOVEMENT_SPEED`
    | Jump                    // `keys.w.pressed = false; player.velocity.y = -PLAYER_JUMP_HEIGHT`

  datatype World = World(
    player: Entity,
    tag: Label,
    input: InputState,
    pending: seq<Effect>,
    clock: FpsTracker)

  /** Things that can happen between two states. */
  datatype Event =
    | Frame(now: real)
    | Press(key: string)
    | Release(key: string)
    | Fire(index: nat)

  const StartPlayer := Entity("Player 1", Vec(100.0, 100.0), Vec(0.0, 10.0), 75.0, 200.0, "white", false)

  /** The label's position starts at the constructor default (0, 0). */
  const StartTag := Label(Vec(0.0, 0.0), Vec(0.0, 20.0), "Player 1", "25px Verdana", "white")

  const Start := World(StartPlayer, StartTag, Released, [], Fresh)

  /** Runs a deferred callback. */
  function Apply(w: World, e: Effect): (r: World)
    ensures r.player.pos == w.player.pos && r.player.width == w.player.width
    ensures r.tag == w.tag && r.pending == w.pending && r.clock == w.clock
    ensures e.SetSpeedX? ==> r.player == w.player.(velocity := Vec(e.speed, w.player.velocity.y))
    ensures e.SetSpeedX? ==> r.input == w.input
    ensures e.Jump? ==> r.player == w.player.(velocity := Vec(w.player.velocity.x, -JumpHeight))
    ensures e.Jump? ==> r.input == w.input.(w := false)
  {
    match e
    case SetSpeedX(v) =>
      w.(player := w.player.(velocity := w.player.velocity.(x := v)))
    case Jump =>
      w.(input := w.input.(w := false),
         player := w.player.(velocity := w.player.velocity.(y := -JumpHeight)))
  }

  /** The callbacks the horizontal branch schedules. */
  function MoveEffects(d: Decision): (r: seq<Effect>)
    ensures |r| == if d == Decay then 0 else 1
    ensures forall e :: e in r ==> e.SetSpeedX? && (e.speed == MovementSpeed || e.speed == -MovementSpeed)
    ensures forall e :: e in r ==> (e.speed > 0.0 <==> d == MoveRight)
  {
    match d
    case MoveRight => [SetSpeedX(MovementSpeed)]
    case MoveLeft => [SetSpeedX(-MovementSpeed)]
    case Decay => []
  }

  /** One call of `animate`: sample the clock, step the player, move the label,
      then run the movement and jump policy on the updated player. */
  function Tick(w: World, now: real, groundLevel: real): (r: World)
    ensures var stepped := Step(w.player, groundLevel);
            && r.player.pos == stepped.pos
            && r.player.velocity.y == stepped.velocity.y
            && r.player.isFalling == stepped.isFalling
    ensures && r.player.width == w.player.width && r.player.height == w.player.height
            && r.player.name == w.player.name && r.player.color == w.player.color
    ensures OnEntity(r.tag, r.player)
    ensures r.tag.(pos := w.tag.pos) == w.tag
    ensures r.input == w.input
    ensures |r.pending| >= |w.pending| && r.pending[..|w.pending|] == w.pending
    ensures r.clock == Sample(w.clock, now)
  {
    var player := Step(w.player, groundLevel);
    var tag := Track(w.tag, player);
    var decision := Decide(w.input, player);
    var player' := if decision == Decay
      then player.(velocity := player.velocity.(x := DecayVelocity(player.velocity.x)))
      else player;
    var jump := if JumpReady(w.input, player') then [Jump] else [];
    World(player', tag, w.input, w.pending + MoveEffects(decision) + jump, Sample(w.clock, now))
  }

  /** Removes the `i`-th pending callback. */
  function Without(s: seq<Effect>, i: nat): (r: seq<Effect>)
    requires i < |s|
    ensures |r| == |s| - 1
    ensures multiset(r) + multiset{s[i]} == multiset(s)
    ensures r[..i] == s[..i] && r[i..] == s[i + 1..]
  {
    assert s == s[..i] + [s[i]] + s[i + 1..];
    s[..i] + s[i + 1..]
  }

  /** One event. A `Fire` for a callback that is not pending does nothing. */
  function Handle(w: World, ev: Event, groundLevel: real): (r: World)
    // each event runs its handler
    ensures ev.Frame? ==> r == Tick(w, ev.now, groundLevel)
    ensures ev.Press? ==> r.input == KeyDown(w.input, ev.key)
    ensures ev.Release? ==> r.input == KeyUp(w.input, ev.key)
    ensures ev.Fire? && ev.index < |w.pending| ==>
              && r.player == Apply(w, w.pending[ev.index]).player
              && r.input == Apply(w, w.pending[ev.index]).input
              && r.pending == Without(w.pending, ev.index)
    // key events only change the input
    ensures ev.Press? || ev.Release? ==>
              && r.player == w.player && r.tag == w.tag && r.pending == w.pending && r.clock == w.clock
    ensures ev.Release? ==> r.input.lastKey == w.input.lastKey
    // a callback moves nothing, uses up exactly one pending callback, and at
    // most changes the speeds and the `w` flag
    ensures ev.Fire? && ev.index < |w.pending| ==>
              && |r.pending| == |w.pending| - 1
              && multiset(r.pending) + multiset{w.pending[ev.index]} == multiset(w.pending)
              && r.player.pos == w.player.pos && r.tag == w.tag && r.clock == w.clock
              && r.input.(w := w.input.w) == w.input
    ensures ev.Fire? && ev.index >= |w.pending| ==> r == w
    // only frames move the player or the label
    ensures !ev.Frame? ==> r.player.pos == w.player.pos && r.tag == w.tag
  {
    match ev
    case Frame(now) => Tick(w, now, groundLevel)
    case Press(key) => w.(input := KeyDown(w.input, key))
    case Release(key) => w.(input := KeyUp(w.input, key))
    case Fire(i) =>
      if i < |w.pending| then Apply(w.(pending := Without(w.pending, i)), w.pending[i]) else w
  }

  function Run(w: World, evs: seq<Event>, groundLevel: real): World
    decreases |evs|
  {
    if |evs| == 0 then w else Run(Handle(w, evs[0], groundLevel), evs[1..], groundLevel)
  }

  /** A callback `animate` can schedule. */
  predicate Schedulable(e: Effect) {
    e.Jump? || e.speed == MovementSpeed || e.speed == -MovementSpeed
  }

  /** What holds of every state the game can reach. */
  predicate Valid(w: World) {
    && 0.0 <= w.player.pos.x <= MapWidth
    && 0.0 <= w.player.pos.y
    && OnSpeedGrid(w.player.velocity.x)
    && (forall e :: e in w.pending ==> Schedulable(e))
  }

  /** The frame's branches in terms of the keys alone: after the step the
      player is always on the map, so the position guards never fail, and the
      jump guard reduces to `w` held and not falling. */
  lemma TickPolicy(w: World, now: real, groundLevel: real)
    ensures var stepped := Step(w.player, groundLevel);
            var r := Tick(w, now, groundLevel);
            var added := r.pending[|w.pending|..];
            var jump := if w.input.w && !stepped.isFalling then [Jump] else [];
            && (RightHeld(w.input) ==> added == [SetSpeedX(MovementSpeed)] + jump && r.player.velocity.x == w.player.velocity.x)
            && (LeftHeld(w.input) ==> added == [SetSpeedX(-MovementSpeed)] + jump && r.player.velocity.x == w.player.velocity.x)
            && (!RightHeld(w.input) && !LeftHeld(w.input) ==> added == jump && r.player.velocity.x == DecayVelocity(w.player.velocity.x))
  {
    var stepped := Step(w.player, groundLevel);
    var r := Tick(w, now, groundLevel);
    var decision := Decide(w.input, stepped);
    var jump := if JumpReady(w.input, r.player) then [Jump] else [];
    assert r.pending[|w.pending|..] == MoveEffects(decision) + jump;
    assert JumpReady(w.input, r.player) <==> w.input.w && !stepped.isFalling;
  }

  lemma TickKeepsValid(w: World, now: real, groundLevel: real)
    requires Valid(w)
    ensures Valid(Tick(w, now, groundLevel))
  {
    var r := Tick(w, now, groundLevel);
    DecayKeepsGrid(w.player.velocity.x);
    forall e | e in r.pending
      ensures Schedulable(e)
    {
      if e !in w.pending {
        assert e in r.pending[|w.pending|..];
      }
    }
  }

  lemma HandleKeepsValid(w: World, ev: Event, groundLevel: real)
    requires Valid(w)
    ensures Valid(Handle(w, ev, groundLevel))
  {
    match ev
    case Frame(now) => TickKeepsValid(w, now, groundLevel);
    case Press(_) =>
    case Release(_) =>
    case Fire(i) =>
      if i < |w.pending| {
        MoveSpeedsOnGrid();
        assert w.pending[i] in w.pending;
      }
  }

  /** Whatever the keys do and whenever the callbacks run, the player stays on
      the map, never above its top, and its horizontal speed is always a whole
      number of decay steps of at most `MovementSpeed` either way, so decay
      always brings it to exactly zero. */
  lemma {:induction false} RunKeepsValid(w: World, evs: seq<Event>, groundLevel: real)
    requires Valid(w)
    ensures Valid(Run(w, evs, groundLevel))
    decreases |evs|
  {
    if |evs| > 0 {
      HandleKeepsValid(w, evs[0], groundLevel);
      RunKeepsValid(Handle(w, evs[0], groundLevel), evs[1..], groundLevel);
    }
  }

  lemma StartValid()
    ensures Valid(Start)
  {
    MoveSpeedsOnGrid();
  }

  /** The start-up objects: the player starts at (100, 100) with vertical speed
      10, nothing is pressed or pending, and the label starts at (0, 0), off
      the player, until the first frame moves it there. */
  lemma StartObjects(now: real, groundLevel: real)
    ensures Start.player.pos == Vec(100.0, 100.0) && Start.player.velocity == Vec(0.0, 10.0)
    ensures Start.player.width == 75.0 && Start.player.height == 200.0 && !Start.player.isFalling
    ensures Start.tag.text == Start.player.name && Start.tag.offset == Vec(0.0, 20.0)
    ensures Start.input == Released && Start.pending == [] && Start.clock.window == []
    ensures Start.tag.pos == Vec(0.0, 0.0)
    ensures !OnEntity(Start.tag, Start.player)
    ensures OnEntity(Tick(Start, now, groundLevel).tag, Tick(Start, now, groundLevel).player)
  {
    assert Anchor(Start.player).x == 137.5;
  }

  /** Every reachable state is valid. */
  lemma Reachable(evs: seq<Event>, groundLevel: real)
    ensures Valid(Run(Start, evs, groundLevel))
  {
    StartValid();
    RunKeepsValid(Start, evs, groundLevel);
  }

  /** Once a frame has run, the label sits on the player from then on: key
      events and callbacks change neither the player's position nor its width.
      The label is drawn before it is moved, so each frame draws it where the
      previous frame left the player. */
  lemma {:induction false} LabelFollowsPlayer(w: World, evs: seq<Event>, groundLevel: real)
    requires OnEntity(w.tag, w.player)
    ensures OnEntity(Run(w, evs, groundLevel).tag, Run(w, evs, groundLevel).player)
    decreases |evs|
  {
    if |evs| > 0 {
      var next := Handle(w, evs[0], groundLevel);
      assert OnEntity(next.tag, next.player);
      LabelFollowsPlayer(next, evs[1..], groundLevel);
    }
  }
}
