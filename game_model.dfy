/**
 * The game session's state (internal/game/model.go): phases, grid positions,
 * obstacles, lanes, decorative items, the model record itself, the events it
 * reacts to and the commands it hands back to the event loop.
 *
 * Go's `Model` is a struct. Most of its methods take it by value, change the
 * copy and return it; `NewModel` returns a pointer, and `generateObstacles`
 * and `initializeDecorativeItems` take one and update the fields in place.
 * Here it is a datatype and every transition returns the new record.
 * Timestamps (game start, last update, first move) are not modelled.
 */
module GameModel {
  import opened Wrappers
  import opened Grype

  /** The phases of a session. */
  datatype GameState = Loading | Playing | GameOver | Victory

  /** Fixed height, in rows, of the playable area; row 0 is the finish line. */
  const GameAreaHeight: int := 20

  datatype Position = Position(x: int, y: int)

  /** An obstacle on the field. The sub-cell position `floatX` that the physics
      step accumulates is not modelled; `pos.x` is its truncation. */
  datatype Obstacle = Obstacle(
    pos: Position,
    width: int,
    speed: real,
    cveId: string,
    severity: real,
    severityLabel: string)

  /** A road lane: its row, its direction (+1 right, -1 left) and its base speed. */
  datatype Lane = Lane(y: int, direction: int, speed: real)

  /** The glyphs of the zero-vulnerability decoration (a green heart, sparkles, a star). */
  datatype Symbol = GreenHeart | Sparkles | Star

  /** A decorative item; its float position equals (x, y) when it is placed. */
  datatype DecorativeItem = DecorativeItem(x: int, y: int, symbol: Symbol, speed: real)

  /** Where vulnerabilities come from: the scanner on an image, a report file,
      or any other implementation of the source interface. */
  datatype VulnSource = ScannerSource(image: string) | FileSource(path: string) | OtherSource

  /** The vulnerability id of a collision message, with the advisory link
      that terminals supporting hyperlinks show. */
  datatype VulnIdText = PlainId(id: string) | LinkedId(id: string, url: string)

  /** The tail of a collision message: the severity label, and the CVSS score
      when the obstacle has one. */
  datatype Suffix = WithScore(severity: string, score: real) | LabelOnly(severity: string)

  datatype CollisionMessageParts = CollisionMessageParts(prefix: string, vulnId: VulnIdText, suffix: Suffix)

  /** The game-over message: none (Go's ""), a plain text, or a collision message. */
  datatype Message = NoMessage | Text(text: string) | Collision(parts: CollisionMessageParts)

  datatype Model = Model(
    source: VulnSource,
    state: GameState,
    loadingMsg: string,
    frog: Position,
    obstacles: seq<Obstacle>,
    lanes: seq<Lane>,
    totalVulns: int,
    containerImage: string,
    collisionCve: string,
    collisionMsg: Message,
    collisionObs: Option<Obstacle>,
    width: int,
    height: int,
    hasMoved: bool,
    isZeroVulnGame: bool,
    decorativeItems: seq<DecorativeItem>,
    loadedVulns: seq<Vulnerability>)

  /** The command handed back to the event loop with the new model. */
  datatype Cmd = NoCmd | TickCmd | QuitCmd

  /** The physics of one tick, abstracted: for obstacle i, the truncated
      horizontal position it reaches by moving, before the screen wrap. */
  type Motion = (int, Obstacle) -> int

  /** The floating of the zero-vulnerability decoration in one tick, abstracted:
      for item i, the truncated position its drift and bobbing reach, before
      the screen wrap. */
  type Drift = (int, DecorativeItem) -> Position

  /** The events a session reacts to; `key` is the key's name as the terminal
      library spells it ("up", "w", "enter", " ", "ctrl+c", ...). */
  datatype Msg =
    | KeyMsg(key: string)
    | WindowSizeMsg(width: int, height: int)
    | VulnsLoadedMsg(vulns: seq<Vulnerability>)
    | VulnErrorMsg(err: string)
    | TickMsg(motion: Motion, drift: Drift)
    | OtherMsg

  const DefaultLoadingMsg := "Building obstacle course..."
  const ScanLoadingPrefix := "Building obstacle course from "

  /** The state every session keeps: a positive screen size and obstacles one or two cells wide. */
  ghost predicate Valid(m: Model)
  {
    m.width > 0 && m.height > 0 &&
    forall i :: 0 <= i < |m.obstacles| ==> 1 <= m.obstacles[i].width <= 2
  }

  /** NewModel: a session waiting for its vulnerabilities, on an 80x24 screen
      until the terminal reports its size. */
  function NewModel(source: VulnSource): (m: Model)
    ensures m.state == Loading && m.source == source
    ensures m.width == 80 && m.height == 24
    ensures m.obstacles == [] && m.lanes == [] && m.loadedVulns == [] && m.decorativeItems == []
    ensures !m.hasMoved && !m.isZeroVulnGame && m.collisionMsg == NoMessage && m.collisionObs == None
    ensures m.containerImage == (if source.ScannerSource? then source.image else "")
    ensures source.ScannerSource? ==> m.loadingMsg == ScanLoadingPrefix + source.image + "..."
    ensures !source.ScannerSource? ==> m.loadingMsg == DefaultLoadingMsg
    ensures Valid(m)
  {
    var image := if source.ScannerSource? then source.image else "";
    var loadingMsg :=
      if source.ScannerSource? then ScanLoadingPrefix + image + "..." else DefaultLoadingMsg;
    Model(
      source, Loading, loadingMsg, Position(0, 0), [], [], 0, image,
      "", NoMessage, None, 80, 24, false, false, [], [])
  }
}
