/**
 * The session's state transitions (Update, handleKeyPress, startGame,
 * generateObstacles, initializeDecorativeItems, updateGame, restartGame).
 *
 * Each transition is a method that builds the new model step by step, as
 * the Go code does, and is proved equal to a specification function that
 * describes the new model in one piece. The lemmas at the end state what
 * the transitions promise about a session: the invariant every transition
 * keeps, how a session can end, and what a restart reproduces.
 */
module GameEngine {
  import opened Wrappers
  import opened Grype
  import opened GameModel
  import opened GameRules

  const LoadErrorPrefix := "Failed to load vulnerabilities: "

  /* ---------------------------------------------------------------------
   * Specification functions
   * --------------------------------------------------------------------- */

  /** Where the frog starts: the middle column of the bottom row. */
  function StartPosition(width: int): Position
  {
    Position(Quot(width, 2), GameAreaHeight - 1)
  }

  /** The model once play starts on `vulns`: the lane layout, one obstacle per
      vulnerability, the frog at its start, and the decoration when there is
      nothing to dodge. The collision fields and `hasMoved` are left as they were. */
  ghost function Started(m: Model, vulns: seq<Vulnerability>): Model
  {
    var frog := StartPosition(m.width);
    var zero := |vulns| == 0;
    m.(state := Playing,
       totalVulns := |vulns|,
       frog := frog,
       lanes := LaneLayout(),
       obstacles := ObstacleField(vulns, LaneLayout(), m.width),
       isZeroVulnGame := m.isZeroVulnGame || zero,
       decorativeItems := if zero then DecorativeLayout(m.width, frog) else m.decorativeItems)
  }

  /** The model a restart gives: the collision, the move flag and the decoration
      cleared, then play started again on the cached vulnerabilities. */
  ghost function Restarted(m: Model): Model
  {
    Started(
      m.(state := Playing, hasMoved := false, collisionCve := "", collisionMsg := NoMessage,
         collisionObs := None, decorativeItems := [], isZeroVulnGame := false),
      m.loadedVulns)
  }

  /** The model after one tick of play: obstacles moved and wrapped, the
      decoration floated when there is one, and the game over at the first
      obstacle (in list order) that covers the frog. */
  ghost function Ticked(m: Model, motion: Motion, drift: Drift): Model
  {
    var obstacles := Advanced(m.obstacles, motion, m.width);
    var items := if m.isZeroVulnGame then Floated(m.decorativeItems, drift, m.width) else m.decorativeItems;
    var moved := m.(obstacles := obstacles, decorativeItems := items);
    match FirstCollision(m.frog, obstacles)
    case None => moved
    case Some(k) =>
      moved.(state := GameOver,
             collisionCve := obstacles[k].cveId,
             collisionMsg := Collision(FormatCollisionMessageParts(obstacles[k])),
             collisionObs := Some(obstacles[k]))
  }

  /** The effect of a key press. Off play, quit keys quit and restart keys
      restart the end screens; in play, quit keys quit, movement keys step the
      frog, and a frog on row 0 has won. */
  ghost function KeyResult(m: Model, key: string): (Model, Cmd)
  {
    if m.state != Playing then
      if IsQuitKey(key) then (m, QuitCmd)
      else if IsRestartKey(key) && (m.state == GameOver || m.state == Victory) then (Restarted(m), TickCmd)
      else (m, NoCmd)
    else if IsQuitKey(key) then (m, QuitCmd)
    else
      var frog := match KeyDirection(key) case None => m.frog case Some(d) => Step(m.frog, d, m.width);
      var moved := m.(frog := frog, hasMoved := m.hasMoved || frog != m.frog);
      (if frog.y == 0 then moved.(state := Victory) else moved, NoCmd)
  }

  /** The effect of any event on the session. */
  ghost function Updated(m: Model, msg: Msg): (Model, Cmd)
  {
    match msg
    case KeyMsg(key) => KeyResult(m, key)
    case WindowSizeMsg(w, h) => (if w > 0 && h > 0 then m.(width := w, height := h) else m, NoCmd)
    case VulnsLoadedMsg(vulns) => (Started(m.(loadedVulns := vulns), vulns), TickCmd)
    case VulnErrorMsg(err) => (m.(state := GameOver, collisionMsg := Text(LoadErrorPrefix + err)), QuitCmd)
    case TickMsg(motion, drift) =>
      if m.state == Playing then (Ticked(m, motion, drift), TickCmd)
      else if m.state == Loading then (m, TickCmd)
      else (m, NoCmd)
    case OtherMsg => (m, NoCmd)
  }

  /* ---------------------------------------------------------------------
   * Transitions
   * --------------------------------------------------------------------- */

  method HandleKeyPress(m: Model, key: string) returns (m': Model, cmd: Cmd)
    ensures (m', cmd) == KeyResult(m, key)
  {
    m', cmd := m, NoCmd;
    if m.state != Playing {
      if IsQuitKey(key) {
        cmd := QuitCmd;
      } else if IsRestartKey(key) && (m.state == GameOver || m.state == Victory) {
        m', cmd := RestartGame(m);
      }
      return;
    }
    if IsQuitKey(key) {
      cmd := QuitCmd;
      return;
    }
    var d := KeyDirection(key);
    if d.Some? {
      var frog := Step(m'.frog, d.value, m'.width);
      if frog != m'.frog {
        m' := m'.(frog := frog);
        if !m'.hasMoved {
          m' := m'.(hasMoved := true);
        }
      }
    }
    if m'.frog.y == 0 {
      m' := m'.(state := Victory);
    }
  }

  method StartGame(m: Model, vulns: seq<Vulnerability>) returns (m': Model)
    ensures m' == Started(m, vulns)
  {
    m' := m.(state := Playing, totalVulns := |vulns|);
    m' := m'.(frog := Position(Quot(m'.width, 2), GameAreaHeight - 1));
    var lanes: seq<Lane> := [];
    for i := 0 to |LaneRows|
      invariant lanes == LaneLayout()[..i]
    {
      var y := LaneRows[i];
      if y < GameAreaHeight {
        lanes := lanes + [Lane(y, 1 - 2 * (i % 2), LaneSpeed(i))];
      }
    }
    m' := m'.(lanes := lanes);
    m' := GenerateObstacles(m', vulns);
    if |vulns| == 0 {
      m' := m'.(isZeroVulnGame := true);
      m' := InitializeDecorativeItems(m');
    }
  }

  method GenerateObstacles(m: Model, vulns: seq<Vulnerability>) returns (m': Model)
    ensures m' == m.(obstacles := ObstacleField(vulns, m.lanes, m.width))
  {
    m' := m.(obstacles := []);
    var numLanes := |m.lanes|;
    if numLanes == 0 {
      return;
    }
    for i := 0 to |vulns|
      invariant m' == m.(obstacles := ObstacleField(vulns, m.lanes, m.width)[..i])
    {
      var lane := m.lanes[i % numLanes];
      var props := ObstacleProperties(vulns[i]);
      var startX := StartX(i, |vulns|, numLanes, lane.direction, m.width);
      var obs := Obstacle(
        Position(startX, lane.y),
        props.width,
        lane.speed * props.speedMultiplier * lane.direction as real,
        vulns[i].id,
        vulns[i].cvss,
        vulns[i].severity);
      assert obs == ObstacleFor(vulns, m.lanes, m.width, i);
      assert ObstacleField(vulns, m.lanes, m.width)[..i + 1] == ObstacleField(vulns, m.lanes, m.width)[..i] + [obs];
      m' := m'.(obstacles := m'.obstacles + [obs]);
    }
  }

  method InitializeDecorativeItems(m: Model) returns (m': Model)
    ensures m' == m.(decorativeItems := DecorativeLayout(m.width, m.frog))
  {
    m' := m.(decorativeItems := []);
    for i := 0 to DecorativeCount
      invariant m' == m.(decorativeItems := DecorativeLayout(m.width, m.frog)[..i])
    {
      m' := m'.(decorativeItems := m'.decorativeItems + [DecorativeItemAt(i, m.width, m.frog)]);
    }
  }

  /** The first loop of updateGame: each obstacle moves to the column its
      motion gives and wraps at the margins. */
  method MoveObstacles(obstacles: seq<Obstacle>, motion: Motion, width: int) returns (moved: seq<Obstacle>)
    ensures moved == Advanced(obstacles, motion, width)
  {
    moved := obstacles;
    for i := 0 to |moved|
      invariant |moved| == |obstacles|
      invariant moved[..i] == Advanced(obstacles, motion, width)[..i]
      invariant moved[i..] == obstacles[i..]
    {
      var o := moved[i];
      var x := motion(i, o);
      if x < -o.width - WrapMargin {
        x := width + WrapMargin;
      } else if x > width + WrapMargin {
        x := -o.width - WrapMargin;
      }
      moved := moved[i := o.(pos := o.pos.(x := x))];
    }
    assert moved == Advanced(obstacles, motion, width);
  }

  /** The second loop of updateGame: each decorative item floats to where its
      drift takes it and re-enters at column -2 past the right edge. */
  method FloatItems(items: seq<DecorativeItem>, drift: Drift, width: int) returns (floated: seq<DecorativeItem>)
    ensures floated == Floated(items, drift, width)
  {
    floated := items;
    for i := 0 to |floated|
      invariant |floated| == |items|
      invariant floated[..i] == Floated(items, drift, width)[..i]
      invariant floated[i..] == items[i..]
    {
      var p := drift(i, floated[i]);
      var item := floated[i].(x := p.x, y := p.y);
      if item.x > width + 2 {
        item := item.(x := -2);
      }
      floated := floated[i := item];
    }
    assert floated == Floated(items, drift, width);
  }

  method UpdateGame(m: Model, motion: Motion, drift: Drift) returns (m': Model)
    ensures m' == Ticked(m, motion, drift)
  {
    var obstacles := MoveObstacles(m.obstacles, motion, m.width);
    m' := m.(obstacles := obstacles);

    if m.isZeroVulnGame {
      var items := FloatItems(m.decorativeItems, drift, m.width);
      m' := m'.(decorativeItems := items);
    }

    for i := 0 to |obstacles|
      invariant forall j :: 0 <= j < i ==> !CheckCollision(m.frog, obstacles[j])
    {
      var obs := obstacles[i];
      if CheckCollision(m.frog, obs) {
        assert FirstCollision(m.frog, obstacles) == Some(i);
        m' := m'.(state := GameOver, collisionCve := obs.cveId);
        m' := m'.(collisionMsg := Collision(FormatCollisionMessageParts(obs)), collisionObs := Some(obs));
        return;
      }
    }
  }

  method RestartGame(m: Model) returns (m': Model, cmd: Cmd)
    ensures m' == Restarted(m) && cmd == TickCmd
  {
    m' := m.(state := Playing, hasMoved := false, collisionCve := "", collisionMsg := NoMessage, collisionObs := None);
    m' := m'.(decorativeItems := [], isZeroVulnGame := false);
    m' := StartGame(m', m'.loadedVulns);
    cmd := TickCmd;
  }

  /** Update: the event loop's entry point. */
  method Update(m: Model, msg: Msg) returns (m': Model, cmd: Cmd)
    ensures (m', cmd) == Updated(m, msg)
  {
    m', cmd := m, NoCmd;
    match msg {
      case KeyMsg(key) =>
        m', cmd := HandleKeyPress(m, key);
      case WindowSizeMsg(w, h) =>
        if w > 0 && h > 0 {
          m' := m.(width := w, height := h);
        }
      case VulnsLoadedMsg(vulns) =>
        m' := m.(loadedVulns := vulns);
        m' := StartGame(m', vulns);
        cmd := TickCmd;
      case VulnErrorMsg(err) =>
        m' := m.(state := GameOver, collisionMsg := Text(LoadErrorPrefix + err));
        cmd := QuitCmd;
      case TickMsg(motion, drift) =>
        if m.state == Playing {
          m' := UpdateGame(m, motion, drift);
          cmd := TickCmd;
        } else if m.state == Loading {
          cmd := TickCmd;
        }
      case OtherMsg =>
    }
  }

  /* ---------------------------------------------------------------------
   * What a session keeps
   * --------------------------------------------------------------------- */

  /** The invariant of a session: a positive screen, obstacles one or two
      cells wide and always on a road lane, the frog inside the rows and
      never left of column 0, and never on the finish line while play goes on. */
  ghost predicate Consistent(m: Model)
  {
    && Valid(m)
    && 0 <= m.frog.y < GameAreaHeight && m.frog.x >= 0
    && (m.state == Playing ==> m.frog.y > 0)
    && (m.lanes == [] || m.lanes == LaneLayout())
    && (forall i :: 0 <= i < |m.obstacles| ==> HasLane(m.lanes, m.obstacles[i].pos.y))
  }

  lemma NewModelConsistent(source: VulnSource)
    ensures Consistent(NewModel(source))
  {
  }

  lemma StartedConsistent(m: Model, vulns: seq<Vulnerability>)
    requires m.width > 0 && m.height > 0
    ensures Consistent(Started(m, vulns))
  {
  }

  lemma TickedConsistent(m: Model, motion: Motion, drift: Drift)
    requires Consistent(m)
    ensures Consistent(Ticked(m, motion, drift))
  {
  }

  /** Every event keeps a consistent session consistent. */
  lemma {:induction false} UpdatePreservesConsistent(m: Model, msg: Msg)
    requires Consistent(m)
    ensures Consistent(Updated(m, msg).0)
  {
    match msg
    case KeyMsg(key) =>
      if m.state != Playing && !IsQuitKey(key) && IsRestartKey(key) && (m.state == GameOver || m.state == Victory) {
        StartedConsistent(
          m.(state := Playing, hasMoved := false, collisionCve := "", collisionMsg := NoMessage,
             collisionObs := None, decorativeItems := [], isZeroVulnGame := false),
          m.loadedVulns);
      }
    case WindowSizeMsg(w, h) =>
    case VulnsLoadedMsg(vulns) =>
      StartedConsistent(m.(loadedVulns := vulns), vulns);
    case VulnErrorMsg(err) =>
    case TickMsg(motion, drift) =>
      if m.state == Playing {
        TickedConsistent(m, motion, drift);
      }
    case OtherMsg =>
  }

  /* ---------------------------------------------------------------------
   * What a session promises
   * --------------------------------------------------------------------- */

  /** A quit key quits in every state and changes nothing. */
  lemma QuitKeyQuits(m: Model, key: string)
    requires IsQuitKey(key)
    ensures Updated(m, KeyMsg(key)) == (m, QuitCmd)
  {
  }

  /** Outside play only the quit keys and, on an end screen, the restart
      keys do anything; in play a key that is neither a move nor a quit
      leaves the frog where it is. */
  lemma IdleKeysChangeNothing(m: Model, key: string)
    requires !IsQuitKey(key)
    requires m.state != Playing ==> !(IsRestartKey(key) && (m.state == GameOver || m.state == Victory))
    requires m.state == Playing ==> KeyDirection(key).None? && m.frog.y != 0
    ensures Updated(m, KeyMsg(key)) == (m, NoCmd)
  {
  }

  /** Play starts on a free row: no obstacle covers the frog. */
  lemma StartIsSafe(m: Model, vulns: seq<Vulnerability>)
    ensures FirstCollision(Started(m, vulns).frog, Started(m, vulns).obstacles) == None
  {
  }

  /** A key press in play moves the frog by at most one cell, keeps it on the
      screen if it was, and wins exactly when the frog reaches row 0. */
  lemma KeyMovesFrogOneCell(m: Model, key: string)
    requires m.state == Playing && !IsQuitKey(key)
    ensures var m' := KeyResult(m, key).0;
      && (m'.frog == m.frog || m'.frog in {
           Position(m.frog.x, m.frog.y - 1), Position(m.frog.x, m.frog.y + 1),
           Position(m.frog.x - 1, m.frog.y), Position(m.frog.x + 1, m.frog.y)})
      && (InField(m.frog, m.width) ==> InField(m'.frog, m.width))
      && (m'.state == Victory <==> m'.frog.y == 0)
      && (m'.state == Playing <==> m'.frog.y != 0)
      && (m'.hasMoved <==> m.hasMoved || m'.frog != m.frog)
  {
  }

  /** Victory is reached only from play, by a key that puts the frog on row 0. */
  lemma VictoryOnlyAtFinishLine(m: Model, msg: Msg)
    requires m.state != Victory && Updated(m, msg).0.state == Victory
    ensures m.state == Playing && msg.KeyMsg? && Updated(m, msg).0.frog.y == 0
  {
  }

  /** A game ends in defeat only through a failed load or through an obstacle
      that covers the frog, and that obstacle is the one the message names. */
  lemma GameOverCause(m: Model, msg: Msg)
    requires m.state != GameOver && Updated(m, msg).0.state == GameOver
    ensures var m' := Updated(m, msg).0;
      || (msg.VulnErrorMsg? && m'.collisionMsg == Text(LoadErrorPrefix + msg.err) && Updated(m, msg).1 == QuitCmd)
      || (msg.TickMsg? && m.state == Playing && m'.collisionObs.Some?
          && CheckCollision(m'.frog, m'.collisionObs.value)
          && m'.collisionObs.value in m'.obstacles
          && m'.collisionCve == m'.collisionObs.value.cveId
          && m'.collisionMsg == Collision(FormatCollisionMessageParts(m'.collisionObs.value)))
  {
  }

  /** A tick ends the game exactly when some obstacle covers the frog after moving. */
  lemma TickEndsGameIffHit(m: Model, motion: Motion, drift: Drift)
    requires m.state == Playing
    ensures var obstacles := Advanced(m.obstacles, motion, m.width);
      Ticked(m, motion, drift).state == GameOver <==>
        exists i :: 0 <= i < |obstacles| && CheckCollision(m.frog, obstacles[i])
  {
  }

  /** The end screens are left only by a restart key or a fresh load; a
      failed load keeps them in defeat. */
  lemma TerminalStatesHold(m: Model, msg: Msg)
    requires m.state == GameOver || m.state == Victory
    ensures var m' := Updated(m, msg).0;
      || m'.state == m.state
      || (m'.state == Playing && ((msg.KeyMsg? && IsRestartKey(msg.key)) || msg.VulnsLoadedMsg?))
      || (m'.state == GameOver && msg.VulnErrorMsg?)
  {
  }

  /** Only a load replaces the cached vulnerabilities. */
  lemma UpdateKeepsCache(m: Model, msg: Msg)
    ensures msg.VulnsLoadedMsg? ==> Updated(m, msg).0.loadedVulns == msg.vulns
    ensures !msg.VulnsLoadedMsg? ==> Updated(m, msg).0.loadedVulns == m.loadedVulns
  {
  }

  /** A restart on an unchanged screen rebuilds exactly the course the load built:
      the same lanes, obstacles and frog start. */
  lemma RestartReproducesLoad(loaded: Model, later: Model, vulns: seq<Vulnerability>)
    requires later.loadedVulns == vulns && later.width == loaded.width
    ensures var first := Updated(loaded, VulnsLoadedMsg(vulns)).0;
      var again := Restarted(later);
      again.lanes == first.lanes && again.obstacles == first.obstacles && again.frog == first.frog &&
      again.totalVulns == first.totalVulns && again.state == Playing && !again.hasMoved &&
      again.collisionObs == None && again.collisionMsg == NoMessage
  {
  }

  /** An empty report makes a decorated game, and a restart of it does again. */
  lemma ZeroVulnerabilitiesDecorate(m: Model)
    ensures var s := Started(m, []);
      s.isZeroVulnGame && |s.decorativeItems| == DecorativeCount && s.obstacles == []
    ensures m.loadedVulns == [] ==> Restarted(m).isZeroVulnGame
    ensures m.loadedVulns != [] ==> !Restarted(m).isZeroVulnGame && Restarted(m).decorativeItems == []
  {
  }
}
