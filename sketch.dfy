/**
 * The p5 sketch's module-level state and the operations that change it: the
 * two-state input machine of handleInput, spawnBicycle, the drop and travel
 * branches of p.draw with the arrival commit, the particle pass and
 * emitParticles.
 */
module Sketch {
  import opened Wrappers
  import opened Ideas
  import opened Colors
  import opened Particles
  import opened Motion

  /** `gameState`: no bicycle yet, or a bicycle that develops the idea. */
  datatype GameState = Seeding | Developing

  /**
   * The random values one emitted particle consumes: its two velocity
   * components (p.random(-0.5, 0.5)), getMixedColor's index draws and its
   * blend amount (p.random(0.2, 0.8)).
   */
  datatype ParticleDraw = ParticleDraw(vx: real, vy: real, pick: nat -> real, blend: real)

  /**
   * `born` are particles emitted at (x, y), one per draw in order: each with
   * its draw's velocity, full lifespan and a colour getMixedColor may return.
   */
  ghost predicate EmittedBatch(born: seq<Particle>, x: real, y: real, draws: seq<ParticleDraw>, palette: seq<Color>)
  {
    && |born| <= |draws|
    && forall i :: 0 <= i < |born| ==>
         && born[i].x == x && born[i].y == y
         && born[i].vx == draws[i].vx && born[i].vy == draws[i].vy
         && born[i].lifespan == LIFESPAN
         && IsMixOf(palette, born[i].color, draws[i].blend)
  }

  /** One more particle made from the next draw extends an emitted batch. */
  lemma EmittedBatchGrows(born: seq<Particle>, p: Particle, x: real, y: real, draws: seq<ParticleDraw>, palette: seq<Color>)
    requires EmittedBatch(born, x, y, draws, palette) && |born| < |draws|
    requires p.x == x && p.y == y && p.vx == draws[|born|].vx && p.vy == draws[|born|].vy
    requires p.lifespan == LIFESPAN && IsMixOf(palette, p.color, draws[|born|].blend)
    ensures EmittedBatch(born + [p], x, y, draws, palette)
  {
    forall i | 0 <= i < |born| + 1
      ensures (born + [p])[i] == if i < |born| then born[i] else p
    {
    }
  }

  /** The parts of `before + born`. */
  lemma SplitAppend(before: seq<Particle>, born: seq<Particle>)
    ensures (before + born)[..|before|] == before && (before + born)[|before|..] == born
  {
  }

  function Abs(r: real): real
  {
    if r < 0.0 then -r else r
  }

  /** The bicycle object spawnBicycle creates and p.draw moves. */
  class Bicycle {
    var groundY: real
    var x: real
    var y: real
    var px: real
    var py: real
    var yVelocity: real
    var gravity: real
    var isDropping: bool
    var angle: real
    /** `targetX`/`targetY`, which the sketch sets and clears together. */
    var target: Option<Point>
    var speed: real
    var wheelRotation: real
    var wheelRadius: real
    var wheelBase: real
    var currentVector: Embedding
    var pendingIdeaText: Option<string>
    var arrivalPoint: Option<Point>

    /**
     * The object literal of spawnBicycle: DROP_HEIGHT above its ground line,
     * at rest, dropping, with no target and no pending idea. (`px` is left
     * unset by the sketch until the first travel frame; here it starts at `x`.)
     */
    constructor Spawn(randomX: real, randomY: real, initialVector: Embedding)
      ensures AsSpawned(randomX, randomY, initialVector)
    {
      groundY := randomY;
      x := randomX;
      y := randomY - DROP_HEIGHT;
      px := randomX;
      py := randomY - DROP_HEIGHT;
      yVelocity := 0.0;
      gravity := GRAVITY;
      isDropping := true;
      angle := 0.0;
      target := None;
      speed := 0.0;
      wheelRotation := 0.0;
      wheelRadius := 15.0;
      wheelBase := 25.0;
      currentVector := initialVector;
      pendingIdeaText := None;
      arrivalPoint := None;
    }

    /** Every field as the object literal of spawnBicycle sets it. */
    ghost predicate AsSpawned(randomX: real, randomY: real, initialVector: Embedding)
      reads this
    {
      && groundY == randomY && x == randomX && y == randomY - DROP_HEIGHT
      && px == randomX && py == randomY - DROP_HEIGHT
      && yVelocity == 0.0 && gravity == GRAVITY && isDropping
      && angle == 0.0 && target == None && speed == 0.0 && wheelRotation == 0.0
      && wheelRadius == 15.0 && wheelBase == 25.0 && currentVector == initialVector
      && pendingIdeaText == None && arrivalPoint == None
    }

    /**
     * One travel frame's motion toward the target: the previous position is
     * remembered, the position eases TRAVEL_EASE of the way, the heading
     * eases HEADING_EASE toward the target along the shortest turn, the
     * speed is the distance covered and the wheel turns by a tenth of it.
     */
    twostate predicate Rode(geo: Geometry)
      reads this
    {
      && target.Some?
      && var goal := target.value;
      && px == old(x) && py == old(y)
      && x == Lerp(old(x), goal.x, TRAVEL_EASE)
      && y == Lerp(old(y), goal.y, TRAVEL_EASE)
      && angle == LerpAngle(old(angle), geo.atan2(goal.y - y, goal.x - x), HEADING_EASE)
      && speed == geo.dist(x, y, px, py)
      && wheelRotation == old(wheelRotation) + speed * 0.1
    }

    /**
     * The fields no frame of p.draw writes: the ground line, gravity, the
     * wheel geometry and the current vector.
     */
    twostate predicate ShapeKept()
      reads this
    {
      && groundY == old(groundY) && gravity == old(gravity)
      && wheelRadius == old(wheelRadius) && wheelBase == old(wheelBase)
      && currentVector == old(currentVector)
    }

    /**
     * Every field except the four an idea sets (target, pending text,
     * arrival point and current vector) is as it was.
     */
    twostate predicate BodyUnchanged()
      reads this
    {
      && x == old(x) && y == old(y) && px == old(px) && py == old(py) && groundY == old(groundY)
      && yVelocity == old(yVelocity) && gravity == old(gravity) && isDropping == old(isDropping)
      && angle == old(angle) && speed == old(speed) && wheelRotation == old(wheelRotation)
      && wheelRadius == old(wheelRadius) && wheelBase == old(wheelBase)
    }
  }

  /** The sketch closure's state. */
  class Sketch {
    var gameState: GameState
    var bicycle: Bicycle?
    var particles: seq<Particle>
    var ideaTrajectory: seq<IdeaRecord>
    var colorPalette: seq<Color>
    /** `ideaInput.disabled`. */
    var inputDisabled: bool
    /** Every colour ever put into the palette, oldest first. */
    ghost var colorHistory: seq<Color>
    /** Every idea the state machine accepted, in order of submission. */
    ghost var acceptedIdeas: seq<string>

    /** The bicycle, if there is one, as a frame. */
    function Ridden(): set<Bicycle>
      reads this`bicycle
    {
      if bicycle == null then {} else {bicycle}
    }

    /** The idea in flight, if any. */
    ghost function PendingTexts(): seq<string>
      reads this`bicycle, bicycle
    {
      if bicycle != null && bicycle.pendingIdeaText.Some? then [bicycle.pendingIdeaText.value] else []
    }

    /** The bicycle is dropping or travelling: the input must be locked. */
    ghost predicate Busy()
      reads this`bicycle, bicycle
    {
      bicycle != null && (bicycle.isDropping || bicycle.target.Some?)
    }

    /**
     * The invariant the sketch keeps between events, apart from the
     * particles and the state of the input:
     * - there is a bicycle exactly when the state is Developing, and nothing
     *   has happened before the bicycle exists;
     * - the palette is the newest MAX_PALETTE_SIZE colours, newest first;
     * - every accepted idea is either in the trajectory, in order, or the one
     *   pending idea, which is the newest; a target is set exactly when an
     *   idea is pending, and the arrival point is that target;
     * - a pending idea is a nonempty (truthy) text, so the arrival commit
     *   never skips it.
     */
    ghost predicate Consistent()
      reads this`gameState, this`bicycle, this`ideaTrajectory, this`colorPalette,
            this`colorHistory, this`acceptedIdeas, bicycle
    {
      && (gameState == Seeding <==> bicycle == null)
      && (gameState == Seeding ==> colorHistory == [] && ideaTrajectory == [] && acceptedIdeas == [])
      && colorPalette == RecentFirst(colorHistory)
      && (bicycle != null ==> colorHistory != [])
      && Texts(ideaTrajectory) + PendingTexts() == acceptedIdeas
      && (bicycle != null ==>
            && (bicycle.target.Some? <==> bicycle.pendingIdeaText.Some?)
            && bicycle.arrivalPoint == bicycle.target
            && (bicycle.pendingIdeaText.Some? ==> bicycle.pendingIdeaText.value != "")
            && (bicycle.isDropping ==> bicycle.target.None?)
            && bicycle.gravity == GRAVITY)
    }

    /** There are no particles before the bicycle exists; every particle is alive, with at most LIFESPAN left. */
    ghost predicate ParticlesAlive()
      reads this`gameState, this`particles
    {
      && (gameState == Seeding ==> particles == [])
      && LifespansWithin(particles, LIFESPAN)
    }

    /**
     * The full invariant: besides Consistent and ParticlesAlive, the input is
     * disabled exactly while the bicycle drops or travels, so at most one idea
     * is ever in flight.
     */
    ghost predicate Valid()
      reads this, bicycle
    {
      Consistent() && ParticlesAlive() && inputDisabled == Busy()
    }

    /** The state before the first frame: no bicycle, nothing recorded, input enabled. */
    constructor ()
      ensures Valid()
      ensures gameState == Seeding && bicycle == null && !inputDisabled
      ensures particles == [] && ideaTrajectory == [] && colorPalette == []
    {
      gameState := Seeding;
      bicycle := null;
      particles := [];
      ideaTrajectory := [];
      colorPalette := [];
      inputDisabled := false;
      colorHistory := [];
      acceptedIdeas := [];
    }

    // -------------------------------------------------------------------
    // Input

    /**
     * The keydown listener for Enter without Shift. A disabled input
     * receives no key events, and a blank text is ignored; any other text is
     * handed to handleInput together with what the models make of it.
     */
    method OnEnter(text: string, outcome: AnalysisResult, randomX: real, randomY: real)
      requires Valid()
      modifies this, bicycle
      ensures Valid()
      ensures old(inputDisabled) || IsBlank(text) || outcome.AnalysisFailed? ==>
        && gameState == old(gameState) && bicycle == old(bicycle)
        && particles == old(particles) && ideaTrajectory == old(ideaTrajectory)
        && colorPalette == old(colorPalette) && inputDisabled == old(inputDisabled)
        && acceptedIdeas == old(acceptedIdeas)
        && (old(bicycle) != null ==> unchanged(old(bicycle)))
      ensures !old(inputDisabled) && !IsBlank(text) && outcome.Analyzed? ==>
        gameState == Developing && inputDisabled && acceptedIdeas == old(acceptedIdeas) + [text]
      ensures !old(inputDisabled) && !IsBlank(text) && outcome.Analyzed? && old(gameState) == Seeding ==>
        && bicycle != null && fresh(bicycle)
        && bicycle.AsSpawned(randomX, randomY, outcome.analysis.vector)
        && colorPalette == [ColorOf(outcome.analysis.vector)]
        && ideaTrajectory == [IdeaRecord(text, randomX, randomY)]
        && particles == old(particles)
      ensures !old(inputDisabled) && !IsBlank(text) && outcome.Analyzed? && old(gameState) == Developing ==>
        && old(bicycle) != null && bicycle == old(bicycle)
        && (var v := outcome.analysis.vector;
            var cur := old(bicycle.currentVector);
            var goal := Point(old(bicycle.x) + (v[5] - cur[5]) * MOVE_SCALE,
                              old(bicycle.y) + (v[8] - cur[8]) * MOVE_SCALE);
            && bicycle.target == Some(goal) && bicycle.arrivalPoint == Some(goal)
            && bicycle.pendingIdeaText == Some(text) && bicycle.currentVector == v
            && colorPalette == AddColor(old(colorPalette), ColorOf(v)))
        && bicycle.BodyUnchanged()
        && ideaTrajectory == old(ideaTrajectory) && particles == old(particles)
    {
      if inputDisabled {
        return;
      }
      if IsBlank(text) {
        return;
      }
      HandleInput(text, outcome, randomX, randomY);
    }

    /**
     * handleInput, with the awaited analysis as a parameter. On failure the
     * input is re-enabled and nothing else changes. The first idea spawns the
     * bicycle and is planted at once where the bicycle will land; each later
     * idea sets a target displaced by MOVE_SCALE times the change in
     * embedding components 5 and 8, becomes the pending idea, and adds its
     * colour to the palette.
     */
    method HandleInput(text: string, outcome: AnalysisResult, randomX: real, randomY: real)
      requires Valid() && !inputDisabled && !IsBlank(text)
      modifies this, bicycle
      ensures Valid()
      ensures outcome.AnalysisFailed? ==>
        && gameState == old(gameState) && bicycle == old(bicycle)
        && particles == old(particles) && ideaTrajectory == old(ideaTrajectory)
        && colorPalette == old(colorPalette) && !inputDisabled
        && acceptedIdeas == old(acceptedIdeas)
        && (old(bicycle) != null ==> unchanged(old(bicycle)))
      ensures outcome.Analyzed? && old(gameState) == Seeding ==>
        && gameState == Developing && bicycle != null && fresh(bicycle)
        && bicycle.AsSpawned(randomX, randomY, outcome.analysis.vector)
        && colorPalette == [ColorOf(outcome.analysis.vector)]
        && ideaTrajectory == [IdeaRecord(text, randomX, randomY)]
        && particles == old(particles) && inputDisabled
        && acceptedIdeas == [text]
      ensures outcome.Analyzed? && old(gameState) == Developing ==>
        && old(bicycle) != null && bicycle == old(bicycle) && gameState == Developing
        && (var v := outcome.analysis.vector;
            var cur := old(bicycle.currentVector);
            var goal := Point(old(bicycle.x) + (v[5] - cur[5]) * MOVE_SCALE,
                              old(bicycle.y) + (v[8] - cur[8]) * MOVE_SCALE);
            && bicycle.target == Some(goal) && bicycle.arrivalPoint == Some(goal)
            && bicycle.pendingIdeaText == Some(text) && bicycle.currentVector == v
            && colorPalette == AddColor(old(colorPalette), ColorOf(v)))
        && bicycle.BodyUnchanged()
        && ideaTrajectory == old(ideaTrajectory) && particles == old(particles) && inputDisabled
        && acceptedIdeas == old(acceptedIdeas) + [text]
    {
      inputDisabled := true;
      match outcome
      case AnalysisFailed =>
        inputDisabled := false;
      case Analyzed(analysis) =>
        if gameState == Seeding {
          PlantSeed(text, analysis.vector, randomX, randomY);
        } else {
          DevelopIdea(text, analysis.vector);
        }
    }

    /** The SEEDING branch of handleInput. */
    method PlantSeed(text: string, v: Embedding, randomX: real, randomY: real)
      requires Consistent() && ParticlesAlive() && !Busy() && gameState == Seeding && inputDisabled && !IsBlank(text)
      modifies this
      ensures Valid()
      ensures && gameState == Developing && bicycle != null && fresh(bicycle)
              && bicycle.AsSpawned(randomX, randomY, v)
              && colorPalette == [ColorOf(v)]
              && ideaTrajectory == [IdeaRecord(text, randomX, randomY)]
              && particles == old(particles) && inputDisabled
              && acceptedIdeas == [text]
    {
      SpawnBicycle(v, randomX, randomY);
      ideaTrajectory := ideaTrajectory + [IdeaRecord(text, bicycle.x, bicycle.groundY)];
      gameState := Developing;
      acceptedIdeas := acceptedIdeas + [text];
      assert Texts(ideaTrajectory) == [text];
    }

    /** The DEVELOPING branch of handleInput. */
    method DevelopIdea(text: string, v: Embedding)
      requires Consistent() && ParticlesAlive() && !Busy() && gameState == Developing && inputDisabled && !IsBlank(text)
      modifies this`colorPalette, this`colorHistory, this`acceptedIdeas,
               bicycle`target, bicycle`pendingIdeaText, bicycle`arrivalPoint, bicycle`currentVector
      ensures Valid()
      ensures old(bicycle) != null && bicycle == old(bicycle) && gameState == Developing
      ensures var cur := old(bicycle.currentVector);
              var goal := Point(old(bicycle.x) + (v[5] - cur[5]) * MOVE_SCALE,
                                old(bicycle.y) + (v[8] - cur[8]) * MOVE_SCALE);
              && bicycle.target == Some(goal) && bicycle.arrivalPoint == Some(goal)
              && bicycle.pendingIdeaText == Some(text) && bicycle.currentVector == v
      ensures colorPalette == AddColor(old(colorPalette), ColorOf(v))
      ensures bicycle.BodyUnchanged()
      ensures ideaTrajectory == old(ideaTrajectory) && particles == old(particles) && inputDisabled
      ensures acceptedIdeas == old(acceptedIdeas) + [text]
    {
      var newVector := v;
      var dx := newVector[5] - bicycle.currentVector[5];
      var dy := newVector[8] - bicycle.currentVector[8];
      bicycle.target := Some(Point(bicycle.x + dx * MOVE_SCALE, bicycle.y + dy * MOVE_SCALE));
      bicycle.pendingIdeaText := Some(text);
      bicycle.arrivalPoint := bicycle.target;
      PushColor(ColorOf(newVector));
      bicycle.currentVector := newVector;
      acceptedIdeas := acceptedIdeas + [text];
    }

    /**
     * `colorPalette.unshift(c)` and, past MAX_PALETTE_SIZE, `pop()`; the
     * palette stays the newest colours of its history.
     */
    method PushColor(c: Color)
      modifies this`colorPalette, this`colorHistory
      ensures colorPalette == AddColor(old(colorPalette), c)
      ensures colorHistory == old(colorHistory) + [c]
      ensures old(colorPalette) == RecentFirst(old(colorHistory)) ==> colorPalette == RecentFirst(colorHistory)
    {
      AddColorKeepsRecentFirst(colorHistory, c);
      colorPalette := [c] + colorPalette;
      if |colorPalette| > MAX_PALETTE_SIZE {
        colorPalette := colorPalette[..|colorPalette| - 1];
      }
      colorHistory := colorHistory + [c];
    }

    /**
     * spawnBicycle: a fresh bicycle, and a palette reset to exactly the
     * initial idea's colour.
     */
    method SpawnBicycle(initialVector: Embedding, randomX: real, randomY: real)
      modifies this`bicycle, this`colorPalette, this`colorHistory
      ensures fresh(bicycle) && bicycle != null
      ensures bicycle.AsSpawned(randomX, randomY, initialVector)
      ensures colorPalette == [ColorOf(initialVector)] && colorHistory == [ColorOf(initialVector)]
    {
      bicycle := new Bicycle.Spawn(randomX, randomY, initialVector);
      var initialColor := ColorOf(initialVector);
      colorPalette := [initialColor];
      colorHistory := [initialColor];
      RecentFirstSingle(initialColor);
    }

    // -------------------------------------------------------------------
    // One frame

    /**
     * The state-changing part of p.draw: the particle pass (only once the
     * palette has a colour), then, if there is a bicycle, one frame of its
     * drop or of its travel toward the target.
     */
    method Draw(geo: Geometry, draws: seq<ParticleDraw>)
      requires Valid()
      requires |draws| == EMITTED_PER_FRAME
      requires forall i :: 0 <= i < |draws| ==> FairPicks(draws[i].pick, |colorPalette|)
      modifies this`particles, this`ideaTrajectory, this`inputDisabled,
               Ridden()`px, Ridden()`py, Ridden()`x, Ridden()`y, Ridden()`yVelocity, Ridden()`isDropping,
               Ridden()`angle, Ridden()`speed, Ridden()`wheelRotation,
               Ridden()`target, Ridden()`pendingIdeaText, Ridden()`arrivalPoint
      ensures Valid()
      ensures gameState == old(gameState) && bicycle == old(bicycle) && colorPalette == old(colorPalette)
      ensures bicycle != null ==> bicycle.ShapeKept()
      ensures acceptedIdeas == old(acceptedIdeas)
      ensures old(bicycle) == null ==> particles == old(particles) && ideaTrajectory == old(ideaTrajectory)
      ensures ideaTrajectory == old(ideaTrajectory) ||
        (&& old(bicycle) != null && old(bicycle.pendingIdeaText).Some? && old(bicycle.arrivalPoint).Some?
         && ideaTrajectory == old(ideaTrajectory) + [IdeaRecord(old(bicycle.pendingIdeaText).value,
                                                               old(bicycle.arrivalPoint).value.x,
                                                               old(bicycle.arrivalPoint).value.y)])
      ensures !old(inputDisabled) ==> !inputDisabled && ideaTrajectory == old(ideaTrajectory)
    {
      if |colorPalette| > 0 {
        UpdateParticles();
      }
      if bicycle == null {
        return;
      }
      if bicycle.isDropping {
        DropTick();
      } else if bicycle.target.Some? {
        TravelTick(geo, draws);
      }
    }

    /**
     * The reverse particle loop: each particle moves by its velocity and
     * loses DECAY of lifespan, and one with no lifespan left is spliced out
     * in place.
     */
    method UpdateParticles()
      requires Valid()
      modifies this`particles
      ensures Valid()
      ensures particles == Step(old(particles))
    {
      ghost var before := particles;
      var i := |particles|;
      while i > 0
        invariant 0 <= i <= |before|
        invariant particles == before[..i] + Step(before[i..])
        decreases i
      {
        i := i - 1;
        SpliceStep(before, i, particles);
        var particle := particles[i];
        particle := particle.(x := particle.x + particle.vx, y := particle.y + particle.vy,
                              lifespan := particle.lifespan - DECAY);
        assert particle == Advance(before[i]);
        if particle.lifespan <= 0 {
          particles := particles[..i] + particles[i + 1..];
        } else {
          particles := particles[i := particle];
        }
      }
      assert before[0..] == before;
      StepLowersLifespans(before, LIFESPAN);
    }

    /**
     * A drop frame: gravity accelerates the bicycle; on reaching its ground
     * line it bounces back with BOUNCE of its speed, and a bounce slower than
     * SETTLE_SPEED ends the drop and re-enables the input.
     */
    method DropTick()
      requires Valid() && bicycle != null && bicycle.isDropping
      modifies this`inputDisabled, bicycle`y, bicycle`yVelocity, bicycle`isDropping
      ensures Valid()
      ensures var v := old(bicycle.yVelocity) + old(bicycle.gravity);
              var fallen := old(bicycle.y) + v;
              if fallen >= old(bicycle.groundY) then
                && bicycle.y == old(bicycle.groundY) && bicycle.yVelocity == v * BOUNCE
                && bicycle.isDropping == !(Abs(v * BOUNCE) < SETTLE_SPEED)
              else
                bicycle.y == fallen && bicycle.yVelocity == v && bicycle.isDropping
      ensures inputDisabled == bicycle.isDropping
      ensures bicycle.x == old(bicycle.x) && bicycle.groundY == old(bicycle.groundY)
      ensures bicycle.target == old(bicycle.target) && bicycle.pendingIdeaText == old(bicycle.pendingIdeaText)
      ensures bicycle.arrivalPoint == old(bicycle.arrivalPoint) && bicycle.currentVector == old(bicycle.currentVector)
      ensures bicycle.angle == old(bicycle.angle) && bicycle.speed == old(bicycle.speed)
      ensures bicycle.gravity == old(bicycle.gravity) && bicycle.wheelBase == old(bicycle.wheelBase)
    {
      bicycle.yVelocity := bicycle.yVelocity + bicycle.gravity;
      bicycle.y := bicycle.y + bicycle.yVelocity;
      if bicycle.y >= bicycle.groundY {
        bicycle.y := bicycle.groundY;
        bicycle.yVelocity := bicycle.yVelocity * BOUNCE;
        if Abs(bicycle.yVelocity) < SETTLE_SPEED {
          bicycle.isDropping := false;
          inputDisabled := false;
        }
      }
    }

    /**
     * A travel frame: the bicycle eases TRAVEL_EASE of the way toward its
     * target, turns toward it, emits particles, and, closer than
     * ARRIVAL_RADIUS, arrives: the pending idea is appended to the
     * trajectory at its arrival point, target and pending idea are cleared,
     * the bicycle stops and the input is re-enabled.
     */
    method TravelTick(geo: Geometry, draws: seq<ParticleDraw>)
      requires Valid() && bicycle != null && !bicycle.isDropping && bicycle.target.Some?
      requires |draws| == EMITTED_PER_FRAME
      requires forall i :: 0 <= i < |draws| ==> FairPicks(draws[i].pick, |colorPalette|)
      modifies this`particles, this`ideaTrajectory, this`inputDisabled,
               bicycle`px, bicycle`py, bicycle`x, bicycle`y, bicycle`angle, bicycle`speed, bicycle`wheelRotation,
               bicycle`target, bicycle`pendingIdeaText, bicycle`arrivalPoint
      ensures Valid()
      ensures !bicycle.isDropping
      ensures var goal := old(bicycle.target).value;
        if geo.dist(bicycle.x, bicycle.y, goal.x, goal.y) < ARRIVAL_RADIUS then
          && ideaTrajectory == old(ideaTrajectory) + [IdeaRecord(old(bicycle.pendingIdeaText).value, goal.x, goal.y)]
          && bicycle.target == None && bicycle.pendingIdeaText == None && bicycle.speed == 0.0 && !inputDisabled
        else
          && ideaTrajectory == old(ideaTrajectory) && bicycle.target == old(bicycle.target)
          && bicycle.pendingIdeaText == old(bicycle.pendingIdeaText) && inputDisabled
    {
      var goal := bicycle.target.value;
      RideAndEmit(geo, draws);
      if geo.dist(bicycle.x, bicycle.y, goal.x, goal.y) < ARRIVAL_RADIUS {
        Arrive();
      }
    }

    /**
     * The part of a travel frame before the arrival test: move, then emit.
     * The target, the pending idea, the trajectory and the input stay as
     * they were.
     */
    method RideAndEmit(geo: Geometry, draws: seq<ParticleDraw>)
      requires Valid() && bicycle != null && !bicycle.isDropping && bicycle.target.Some?
      requires |draws| == EMITTED_PER_FRAME
      requires forall i :: 0 <= i < |draws| ==> FairPicks(draws[i].pick, |colorPalette|)
      modifies this`particles, bicycle`px, bicycle`py, bicycle`x, bicycle`y, bicycle`angle, bicycle`speed, bicycle`wheelRotation
      ensures Valid() && inputDisabled
      ensures !bicycle.isDropping && bicycle.target == old(bicycle.target)
      ensures bicycle.Rode(geo)
      ensures bicycle.speed < EMIT_MIN_SPEED ==> particles == old(particles)
      ensures bicycle.speed >= EMIT_MIN_SPEED ==> Emitted(old(particles), geo, draws)
    {
      Ride(geo);
      assert Valid();
      EmitParticles(geo, draws);
      assert Consistent();
    }

    /**
     * The motion of a travel frame: remember the previous position, ease
     * toward the target, turn toward it, and measure the distance covered.
     */
    method Ride(geo: Geometry)
      requires Valid() && bicycle != null && bicycle.target.Some?
      modifies bicycle`px, bicycle`py, bicycle`x, bicycle`y, bicycle`angle, bicycle`speed, bicycle`wheelRotation
      ensures Valid()
      ensures bicycle.Rode(geo)
    {
      var goal := bicycle.target.value;
      var px, py := bicycle.x, bicycle.y;
      var x, y := Lerp(px, goal.x, TRAVEL_EASE), Lerp(py, goal.y, TRAVEL_EASE);
      var angleToTarget := geo.atan2(goal.y - y, goal.x - x);
      var speed := geo.dist(x, y, px, py);
      bicycle.px, bicycle.py, bicycle.x, bicycle.y := px, py, x, y;
      bicycle.angle, bicycle.speed := LerpAngle(bicycle.angle, angleToTarget, HEADING_EASE), speed;
      bicycle.wheelRotation := bicycle.wheelRotation + speed * 0.1;
    }

    /**
     * Arrival: a (truthy) pending idea is appended to the trajectory at its
     * arrival point and cleared; in every case the target is cleared, the
     * bicycle stops and the input is re-enabled.
     */
    method Arrive()
      requires Consistent() && ParticlesAlive() && bicycle != null && !bicycle.isDropping && bicycle.target.Some?
      modifies this`ideaTrajectory, this`inputDisabled,
               bicycle`pendingIdeaText, bicycle`arrivalPoint, bicycle`target, bicycle`speed
      ensures Valid()
      ensures ideaTrajectory == old(ideaTrajectory) + [IdeaRecord(old(bicycle.pendingIdeaText).value,
                                                                  old(bicycle.target).value.x,
                                                                  old(bicycle.target).value.y)]
      ensures bicycle.target == None && bicycle.pendingIdeaText == None && bicycle.arrivalPoint == None
      ensures bicycle.speed == 0.0 && !inputDisabled
    {
      if bicycle.pendingIdeaText.Some? && bicycle.pendingIdeaText.value != "" && bicycle.arrivalPoint.Some? {
        ideaTrajectory := ideaTrajectory + [IdeaRecord(bicycle.pendingIdeaText.value,
                                                       bicycle.arrivalPoint.value.x,
                                                       bicycle.arrivalPoint.value.y)];
        bicycle.pendingIdeaText := None;
        bicycle.arrivalPoint := None;
      }
      bicycle.target := None;
      bicycle.speed := 0.0;
      inputDisabled := false;
    }

    /**
     * The particles are `before` followed by EMITTED_PER_FRAME new ones, each
     * at the bicycle's back wheel, with the velocity drawn for it, full
     * lifespan, and a colour getMixedColor may return for the palette.
     */
    ghost predicate Emitted(before: seq<Particle>, geo: Geometry, draws: seq<ParticleDraw>)
      reads this`particles, this`colorPalette, this`bicycle, bicycle
    {
      && bicycle != null && |draws| == EMITTED_PER_FRAME
      && |particles| == |before| + EMITTED_PER_FRAME
      && particles[..|before|] == before
      && EmittedBatch(particles[|before|..], BackWheel(geo).x, BackWheel(geo).y, draws, colorPalette)
    }

    /** The point wheelBase behind the bicycle along its heading. */
    function BackWheel(geo: Geometry): Point
      requires bicycle != null
      reads this`bicycle, bicycle
    {
      Point(bicycle.x - bicycle.wheelBase * geo.cos(bicycle.angle),
            bicycle.y - bicycle.wheelBase * geo.sin(bicycle.angle))
    }

    /**
     * emitParticles: below EMIT_MIN_SPEED nothing; otherwise exactly
     * EMITTED_PER_FRAME new particles at the back wheel, with full lifespan
     * and a colour sampled from the palette, behind the existing ones.
     */
    method EmitParticles(geo: Geometry, draws: seq<ParticleDraw>)
      requires bicycle != null && LifespansWithin(particles, LIFESPAN)
      requires |draws| == EMITTED_PER_FRAME
      requires forall i :: 0 <= i < |draws| ==> FairPicks(draws[i].pick, |colorPalette|)
      modifies this`particles
      ensures LifespansWithin(particles, LIFESPAN)
      ensures bicycle.speed < EMIT_MIN_SPEED ==> particles == old(particles)
      ensures bicycle.speed >= EMIT_MIN_SPEED ==> Emitted(old(particles), geo, draws)
    {
      if bicycle.speed < EMIT_MIN_SPEED {
        return;
      }
      var backWheel := BackWheel(geo);
      EmitAt(backWheel.x, backWheel.y, draws);
    }

    /**
     * The loop of emitParticles: EMITTED_PER_FRAME particles at (x, y),
     * appended behind the existing ones.
     */
    method EmitAt(x: real, y: real, draws: seq<ParticleDraw>)
      requires LifespansWithin(particles, LIFESPAN)
      requires |draws| == EMITTED_PER_FRAME
      requires forall i :: 0 <= i < |draws| ==> FairPicks(draws[i].pick, |colorPalette|)
      modifies this`particles
      ensures LifespansWithin(particles, LIFESPAN)
      ensures |particles| == |old(particles)| + EMITTED_PER_FRAME && particles[..|old(particles)|] == old(particles)
      ensures EmittedBatch(particles[|old(particles)|..], x, y, draws, colorPalette)
    {
      ghost var before := particles;
      ghost var born: seq<Particle> := [];
      for i := 0 to EMITTED_PER_FRAME
        invariant |born| == i
        invariant particles == before + born
        invariant EmittedBatch(born, x, y, draws, colorPalette)
      {
        var c, i1, i2, retries := MixedColor(colorPalette, draws[i].pick, draws[i].blend);
        var particle := Particle(x, y, draws[i].vx, draws[i].vy, LIFESPAN, c);
        EmittedBatchGrows(born, particle, x, y, draws, colorPalette);
        particles := particles + [particle];
        born := born + [particle];
      }
      SplitAppend(before, born);
      assert LifespansWithin(born, LIFESPAN);
      LifespansWithinAppend(before, born, LIFESPAN);
    }
  }

  /**
   * The log saveArt exports has one line per recorded idea: every accepted
   * idea except the one still in flight. While an idea is in flight the input
   * is locked, so OnEnter accepts no second one until it has arrived.
   */
  lemma ExportCountsCommittedIdeas(s: Sketch)
    requires s.Valid()
    ensures |s.ideaTrajectory| == |s.acceptedIdeas| - |s.PendingTexts()|
    ensures s.PendingTexts() != [] ==> s.inputDisabled
  {
    assert |Texts(s.ideaTrajectory) + s.PendingTexts()| == |s.acceptedIdeas|;
  }
}
