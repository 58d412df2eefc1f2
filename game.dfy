/** One round of the game (`GamePanel`): the player square moved by the
    held arrow keys and stopped by walls, the frogs it catches, the score,
    and the countdown that ends the round and records the score.
    The two Swing timers are modelled by two methods, each call one timer
    event run to completion: `Tick` for the 16 ms frame timer
    (`actionPerformed`) and `CountdownTick` for the one-second game timer.
    Stopping both timers is the `running` flag turning false. */
module Game {
  import opened Geometry
  import opened Level
  import opened Numerals
  import opened ScoreStorage
  import opened HighScores

  /** Seconds a round lasts: the initial `timeLeft`. */
  const RoundSeconds: int := 10
  /** Where the player starts. */
  const StartX: int := 100
  const StartY: int := 100

  /** Some wall meets the box. */
  predicate HitsAnyWall(box: Rect, walls: seq<Rect>)
  {
    exists i :: 0 <= i < |walls| && Intersects(box, walls[i])
  }

  /** The frogs the player's box does not meet, in their original order:
      what `frogs.removeIf` leaves. */
  function Survivors(frogs: seq<Point>, box: Rect): (r: seq<Point>)
    ensures |r| <= |frogs|
    ensures forall p :: p in r ==> !Intersects(box, FrogBox(p))
  {
    if frogs == [] then []
    else (if Intersects(box, FrogBox(frogs[0])) then [] else [frogs[0]]) + Survivors(frogs[1..], box)
  }

  /** The frogs the player's box meets, in their original order: what
      `frogs.removeIf` removes. */
  function Caught(frogs: seq<Point>, box: Rect): (r: seq<Point>)
    ensures |r| <= |frogs|
    ensures forall p :: p in r ==> Intersects(box, FrogBox(p))
  {
    if frogs == [] then []
    else (if Intersects(box, FrogBox(frogs[0])) then [frogs[0]] else []) + Caught(frogs[1..], box)
  }

  /** Removal decides frog by frog: the survivors of a list are the
      survivors of its parts, kept in order. */
  lemma {:induction false} SurvivorsConcat(a: seq<Point>, b: seq<Point>, box: Rect)
    ensures Survivors(a + b, box) == Survivors(a, box) + Survivors(b, box)
  {
    if a == [] {
      assert a + b == b;
    } else {
      assert (a + b)[1..] == a[1..] + b;
      SurvivorsConcat(a[1..], b, box);
    }
  }

  /** A frog survives exactly when it was there and the box misses it. */
  lemma {:induction false} SurvivorsMembers(frogs: seq<Point>, box: Rect, p: Point)
    ensures p in Survivors(frogs, box) <==> p in frogs && !Intersects(box, FrogBox(p))
  {
    if frogs != [] {
      SurvivorsMembers(frogs[1..], box, p);
      assert frogs == [frogs[0]] + frogs[1..];
    }
  }

  /** Every frog is either caught or survives, never both and never lost:
      the two lists together hold exactly the frogs there were. */
  lemma {:induction false} CatchSplits(frogs: seq<Point>, box: Rect)
    ensures multiset(Survivors(frogs, box)) + multiset(Caught(frogs, box)) == multiset(frogs)
    ensures |Survivors(frogs, box)| + |Caught(frogs, box)| == |frogs|
  {
    if frogs != [] {
      CatchSplits(frogs[1..], box);
      assert frogs == [frogs[0]] + frogs[1..];
    }
  }

  /** Once removed, the caught frogs are gone: removing again with the
      same box removes nothing. */
  lemma {:induction false} SurvivorsStable(frogs: seq<Point>, box: Rect)
    ensures Survivors(Survivors(frogs, box), box) == Survivors(frogs, box)
  {
    if frogs != [] {
      SurvivorsStable(frogs[1..], box);
      var head := if Intersects(box, FrogBox(frogs[0])) then [] else [frogs[0]];
      SurvivorsConcat(head, Survivors(frogs[1..], box), box);
    }
  }

  /** A coordinate after a frame with the key towards smaller values held
      or not (`back`) and the key towards larger values held or not
      (`forward`): each held key moves it by `velocity`. */
  function Moved(pos: int, back: bool, forward: bool, velocity: int): int
  {
    pos - (if back then velocity else 0) + (if forward then velocity else 0)
  }

  /** The four arrow keys as held during one frame. */
  datatype Keys = Keys(left: bool, right: bool, up: bool, down: bool)

  class GamePanel {
    /** The score history this round appends to (shared with the menus). */
    const history: Ledger
    /** The score file the history is saved to. */
    const store: ScoreFile
    const retryCount: nat

    const velocity: int
    var playerX: int
    var playerY: int
    var timeLeft: int
    var score: int
    /** Both timers still run. */
    var running: bool
    var walls: seq<Rect>
    var frogs: seq<Point>
    /** How many frogs the round started with. */
    ghost var frogTotal: int

    /** Every frog is either still there or counted in the score, the score
        fits in an `int`, the time left is between 0 and the round's length,
        and the timers run exactly while time is left. */
    ghost predicate Valid()
      reads this
    {
      && 0 <= score && score + |frogs| == frogTotal <= MaxInt32
      && 0 <= timeLeft <= RoundSeconds && (running <==> timeLeft > 0)
    }

    /** `new GamePanel(parent, scoreHistory, retryCount)`. The velocity and
        the frog count are given (the source derives them with
        floating-point formulas from the retry count), and the random
        source is given as the draws it yields. */
    constructor (history: Ledger, store: ScoreFile, retryCount: nat, velocity: int,
                 frogCount: nat, wallDraws: seq<WallDraw>, frogDraws: seq<FrogDraw>)
      requires frogCount <= MaxInt32 && frogCount <= |frogDraws|
      ensures Valid() && running && timeLeft == RoundSeconds && score == 0
      ensures this.history == history && this.store == store
      ensures this.retryCount == retryCount && this.velocity == velocity
      ensures playerX == StartX && playerY == StartY
      ensures walls == AcceptedWalls(wallDraws, StartZone(StartX, StartY), BaseWalls + retryCount)
      ensures |frogs| == frogCount
      ensures forall i :: 0 <= i < frogCount ==> frogs[i] == FrogFrom(frogDraws[i])
    {
      this.history := history;
      this.store := store;
      this.retryCount := retryCount;
      this.velocity := velocity;
      playerX, playerY := StartX, StartY;
      timeLeft, score, running := RoundSeconds, 0, true;
      walls, frogs := [], [];
      frogTotal := 0;
      new;
      SpawnWalls(wallDraws);
      SpawnFrogs(frogCount, frogDraws);
    }

    /** `spawnWalls`: draws candidates until `10 + retryCount` of them miss
        the start zone around the player, dropping the others. */
    method SpawnWalls(draws: seq<WallDraw>)
      modifies this`walls
      ensures walls == AcceptedWalls(draws, StartZone(playerX, playerY), BaseWalls + retryCount)
    {
      walls := [];
      var zone := StartZone(playerX, playerY);
      var n: nat := BaseWalls + retryCount;
      var i, k := 0, 0;
      while i < n && k < |draws|
        invariant 0 <= k <= |draws| && 0 <= i <= n && i == |walls|
        invariant walls + AcceptedWalls(draws[k..], zone, n - i) == AcceptedWalls(draws, zone, n)
        decreases |draws| - k
      {
        assert draws[k..][1..] == draws[k + 1..];
        var newWall := WallFrom(draws[k]);
        if !Intersects(newWall, zone) {
          walls := walls + [newWall];
          i := i + 1;
        }
        k := k + 1;
      }
    }

    /** `spawnFrogs`: `count` frogs at the drawn points, no other check. */
    method SpawnFrogs(count: nat, draws: seq<FrogDraw>)
      requires count <= |draws|
      modifies this`frogs, this`frogTotal
      ensures |frogs| == count
      ensures forall i :: 0 <= i < count ==> frogs[i] == FrogFrom(draws[i])
      ensures frogTotal == score + count
    {
      frogs := [];
      for i := 0 to count
        invariant |frogs| == i
        invariant forall j :: 0 <= j < i ==> frogs[j] == FrogFrom(draws[j])
      {
        frogs := frogs + [FrogFrom(draws[i])];
      }
      frogTotal := score + count;
    }

    /** The wall loop of `actionPerformed`: the first wall the box meets,
        or `|walls|` when it meets none. */
    method FirstBlockingWall(box: Rect) returns (k: nat)
      ensures k <= |walls|
      ensures k < |walls| ==> Intersects(box, walls[k])
      ensures forall j :: 0 <= j < k ==> !Intersects(box, walls[j])
      ensures k < |walls| <==> HitsAnyWall(box, walls)
    {
      k := 0;
      while k < |walls|
        invariant k <= |walls|
        invariant forall j :: 0 <= j < k ==> !Intersects(box, walls[j])
      {
        if Intersects(box, walls[k]) {
          break;
        }
        k := k + 1;
      }
    }

    /** `actionPerformed`, one frame: every held key moves the player by
        `velocity`; a move onto a wall is undone as a whole; then every frog
        the player's box meets is removed and scores one point. After the
        timers stop no frame runs, so nothing changes. */
    method Tick(left: bool, right: bool, up: bool, down: bool)
      requires Valid()
      modifies this`playerX, this`playerY, this`score, this`frogs
      ensures Valid()
      ensures walls == old(walls)
      ensures !running ==> playerX == old(playerX) && playerY == old(playerY)
      ensures !running ==> score == old(score) && frogs == old(frogs)
      ensures running ==>
        var targetX, targetY := Moved(old(playerX), left, right, velocity), Moved(old(playerY), up, down, velocity);
        if HitsAnyWall(PlayerBox(targetX, targetY), walls)
        then playerX == old(playerX) && playerY == old(playerY)
        else playerX == targetX && playerY == targetY
      ensures running ==> frogs == Survivors(old(frogs), PlayerBox(playerX, playerY))
      ensures running ==> score == old(score) + |Caught(old(frogs), PlayerBox(playerX, playerY))|
    {
      if !running {
        return;
      }
      var oldX, oldY := playerX, playerY;
      if left { playerX := playerX - velocity; }
      if right { playerX := playerX + velocity; }
      if up { playerY := playerY - velocity; }
      if down { playerY := playerY + velocity; }
      assert playerX == Moved(oldX, left, right, velocity) && playerY == Moved(oldY, up, down, velocity);

      var playerRect := PlayerBox(playerX, playerY);
      var blocking := FirstBlockingWall(playerRect);
      if blocking < |walls| {
        playerX, playerY := oldX, oldY;
        playerRect := PlayerBox(playerX, playerY);
      }

      CatchFrogs(playerRect);
    }

    /** The `frogs.removeIf` of `actionPerformed`: each frog whose box the
        player's box meets is removed and adds one to the score. */
    method CatchFrogs(playerRect: Rect)
      requires Valid()
      modifies this`score, this`frogs
      ensures Valid()
      ensures frogs == Survivors(old(frogs), playerRect)
      ensures score == old(score) + |Caught(old(frogs), playerRect)|
    {
      var before := frogs;
      var kept: seq<Point> := [];
      var i := 0;
      while i < |before|
        invariant 0 <= i <= |before|
        invariant kept == Survivors(before[..i], playerRect)
        invariant score == old(score) + i - |kept|
      {
        SurvivorsConcat(before[..i], [before[i]], playerRect);
        assert before[..i + 1] == before[..i] + [before[i]];
        if Intersects(playerRect, FrogBox(before[i])) {
          score := score + 1;
        } else {
          kept := kept + [before[i]];
        }
        i := i + 1;
      }
      assert before[..i] == before;
      frogs := kept;
      CatchSplits(before, playerRect);
    }

    /** The game timer's callback, once a second: one second less; when
        none is left both timers stop, the score is appended to the history
        and the history is saved. After the timers stop it never runs. */
    method CountdownTick()
      requires Valid()
      modifies this`timeLeft, this`running, history, store
      ensures Valid()
      ensures !old(running) ==> timeLeft == old(timeLeft) && !running
      ensures !old(running) ==> history.scores == old(history.scores) && unchanged(store)
      ensures old(running) ==> timeLeft == old(timeLeft) - 1
      ensures old(running) && running ==> history.scores == old(history.scores) && unchanged(store)
      ensures old(running) && !running ==> history.scores == old(history.scores) + [score]
      ensures old(running) && !running ==> store.present && store.lines == Lines(history.scores)
    {
      if !running {
        return;
      }
      timeLeft := timeLeft - 1;
      if timeLeft <= 0 {
        running := false;
        history.Add(score);
        store.Save(history.scores);
      }
    }
  }

  /** A whole round as the two timers drive it: in each of its ten seconds
      some frames run, then the countdown. The round then has stopped, its
      score is in the history exactly once, and loading the score file
      gives back the history. */
  method PlayRound(g: GamePanel, frames: seq<seq<Keys>>) returns (loaded: seq<Int32>)
    requires g.Valid() && g.running && g.timeLeft == RoundSeconds
    requires |frames| == RoundSeconds
    modifies g, g.history, g.store
    ensures g.Valid() && !g.running && g.timeLeft == 0
    ensures g.history.scores == old(g.history.scores) + [g.score]
    ensures g.store.present && g.store.lines == Lines(g.history.scores)
    ensures loaded == g.history.scores
  {
    var second := 0;
    while second < RoundSeconds
      invariant 0 <= second <= RoundSeconds
      invariant g.Valid() && g.timeLeft == RoundSeconds - second
      invariant second < RoundSeconds ==> g.history.scores == old(g.history.scores)
      invariant second == RoundSeconds ==> g.history.scores == old(g.history.scores) + [g.score]
      invariant second == RoundSeconds ==> g.store.present && g.store.lines == Lines(g.history.scores)
    {
      for f := 0 to |frames[second]|
        invariant g.Valid() && g.running && g.timeLeft == RoundSeconds - second
        invariant g.history.scores == old(g.history.scores)
      {
        var keys := frames[second][f];
        g.Tick(keys.left, keys.right, keys.up, keys.down);
      }
      g.CountdownTick();
      second := second + 1;
    }
    loaded := g.store.Load();
    LoadAfterSave(g.history.scores);
  }

  /** "Start Game" in the main menu (`new GameFrame()`): the history is
      what the score file loads as, and the first round has retry count 1. */
  method StartGame(store: ScoreFile, velocity: int, frogCount: nat,
                   wallDraws: seq<WallDraw>, frogDraws: seq<FrogDraw>) returns (g: GamePanel)
    requires frogCount <= MaxInt32 && frogCount <= |frogDraws|
    ensures fresh(g) && fresh(g.history)
    ensures g.Valid() && g.running && g.score == 0 && g.timeLeft == RoundSeconds
    ensures g.store == store && g.retryCount == 1 && g.velocity == velocity
    ensures g.playerX == StartX && g.playerY == StartY
    ensures g.history.scores == if store.present then Parsed(store.lines) else []
    ensures g.walls == AcceptedWalls(wallDraws, StartZone(StartX, StartY), BaseWalls + 1)
    ensures |g.frogs| == frogCount
    ensures forall i :: 0 <= i < frogCount ==> g.frogs[i] == FrogFrom(frogDraws[i])
  {
    var loaded := store.Load();
    var history := new Ledger(loaded);
    g := new GamePanel(history, store, 1, velocity, frogCount, wallDraws, frogDraws);
  }

  /** The "Retry" button after a round: a new round on the same history,
      with the retry count one higher and so one wall more. */
  method Retry(g: GamePanel, velocity: int, frogCount: nat,
               wallDraws: seq<WallDraw>, frogDraws: seq<FrogDraw>) returns (next: GamePanel)
    requires frogCount <= MaxInt32 && frogCount <= |frogDraws|
    ensures fresh(next)
    ensures next.Valid() && next.running && next.score == 0 && next.timeLeft == RoundSeconds
    ensures next.history == g.history && next.store == g.store
    ensures next.retryCount == g.retryCount + 1 && next.velocity == velocity
    ensures next.playerX == StartX && next.playerY == StartY
    ensures next.walls == AcceptedWalls(wallDraws, StartZone(StartX, StartY), BaseWalls + g.retryCount + 1)
    ensures |next.frogs| == frogCount
    ensures forall i :: 0 <= i < frogCount ==> next.frogs[i] == FrogFrom(frogDraws[i])
  {
    next := new GamePanel(g.history, g.store, g.retryCount + 1, velocity, frogCount, wallDraws, frogDraws);
  }

  /** A session from the main menu: "Start Game", a round, "Retry", a
      second round. Both scores join the history loaded from the file, in
      the order played, and the file then loads as that history. */
  method TwoRounds(store: ScoreFile,
                   velocity1: int, frogCount1: nat, wallDraws1: seq<WallDraw>, frogDraws1: seq<FrogDraw>,
                   frames1: seq<seq<Keys>>,
                   velocity2: int, frogCount2: nat, wallDraws2: seq<WallDraw>, frogDraws2: seq<FrogDraw>,
                   frames2: seq<seq<Keys>>)
    returns (first: GamePanel, second: GamePanel)
    requires frogCount1 <= MaxInt32 && frogCount1 <= |frogDraws1| && |frames1| == RoundSeconds
    requires frogCount2 <= MaxInt32 && frogCount2 <= |frogDraws2| && |frames2| == RoundSeconds
    modifies store
    ensures second.history == first.history && second.retryCount == 2
    ensures first.history.scores
         == old(if store.present then Parsed(store.lines) else []) + [first.score, second.score]
    ensures store.present && Parsed(store.lines) == first.history.scores
  {
    first := StartGame(store, velocity1, frogCount1, wallDraws1, frogDraws1);
    var loaded := PlayRound(first, frames1);
    second := Retry(first, velocity2, frogCount2, wallDraws2, frogDraws2);
    loaded := PlayRound(second, frames2);
    LoadAfterSave(first.history.scores);
  }
}
