/**
 * The frame loop of src/old/main.rs: the keyboard dispatch over one batch
 * of input, the two header rows padded to the terminal's width, the
 * player-in-wall test and one iteration of the loop (read input, skip the
 * frame when paused, otherwise render and write the screen).
 *
 * The physics step (floating-point integration over the elapsed time) and
 * the text of the two headers (`format!` output) are parameters; the UTF-8
 * encoding of the view is the function `encode`; the return value of every
 * libc call is a parameter, as in the Terminal module.
 */
module FrameLoop {
  import opened Common
  import opened Game
  import opened Terminal

  // ---------------------------------------------------------------------
  // Keys
  // ---------------------------------------------------------------------

  const KeyQuit: byte := Byte('q')
  const KeyPause: byte := Byte('p')
  const KeyLeftH: byte := Byte('h')
  const KeyLeftJ: byte := Byte('j')
  const KeyRightL: byte := Byte('l')
  const KeyRightK: byte := Byte('k')
  const KeyForward: byte := Byte('w')
  const KeyBack: byte := Byte('s')
  const KeyStrafeRight: byte := Byte('d')
  const KeyStrafeLeft: byte := Byte('a')
  const KeyStop: byte := Byte(' ')

  /** PI / 2 in ticks of PI / 90: the turn between a heading and a strafe. */
  const QuarterTurn: int := 45

  /** The keys that set the velocity. */
  predicate IsVelocityKey(c: byte)
  {
    c == KeyForward || c == KeyBack || c == KeyStrafeRight || c == KeyStrafeLeft || c == KeyStop
  }

  /** The keys the loop reacts to; every other byte is ignored. */
  predicate IsKey(c: byte)
  {
    c == KeyQuit || c == KeyPause || c == KeyLeftH || c == KeyLeftJ ||
    c == KeyRightL || c == KeyRightK || IsVelocityKey(c)
  }

  /**
   * The velocity a velocity key sets when the player faces `angle`: w and s
   * both move along the heading, d a quarter turn clockwise of it, a a
   * quarter turn anticlockwise, space stops.
   */
  function KeyVelocity(c: byte, angle: int): (v: Velocity)
    requires IsVelocityKey(c)
    ensures v.Stopped? <==> c == KeyStop
    ensures c == KeyForward || c == KeyBack ==> v == Moving(angle)
    ensures c == KeyStrafeRight ==> v == Moving(angle - QuarterTurn)
    ensures c == KeyStrafeLeft ==> v == Moving(angle + QuarterTurn)
  {
    if c == KeyForward || c == KeyBack then Moving(angle)
    else if c == KeyStrafeRight then Moving(angle - QuarterTurn)
    else if c == KeyStrafeLeft then Moving(angle + QuarterTurn)
    else Stopped
  }

  /** The variables of curse_main that persist from one iteration to the next. */
  datatype LoopState = LoopState(
    shouldGo: bool, pause: bool, player: Player, lastInput: seq<byte>, frameNum: nat)

  // ---------------------------------------------------------------------
  // Input dispatch, as a specification
  // ---------------------------------------------------------------------

  /** The effect of one input byte. */
  function ApplyKey(st: LoopState, c: byte): LoopState
  {
    if c == KeyQuit then st.(shouldGo := false)
    else if c == KeyPause then st.(pause := !st.pause)
    else if c == KeyLeftH || c == KeyLeftJ then st.(player := st.player.(angle := st.player.angle + 1))
    else if c == KeyRightL || c == KeyRightK then st.(player := st.player.(angle := st.player.angle - 1))
    else if IsVelocityKey(c) then st.(player := st.player.(velocity := KeyVelocity(c, st.player.angle)))
    else st
  }

  /** The effect of a batch of input bytes, taken in order. */
  function ApplyKeys(st: LoopState, input: seq<byte>): LoopState
    decreases |input|
  {
    if |input| == 0 then st
    else ApplyKey(ApplyKeys(st, input[..|input| - 1]), input[|input| - 1])
  }

  /** The input part of one iteration: the keys, then the record of the last non-empty batch. */
  function AfterInput(st: LoopState, input: seq<byte>): LoopState
  {
    var s := ApplyKeys(st, input);
    if |input| > 0 then s.(lastInput := input) else s
  }

  /** The number of times byte c occurs in the batch. */
  function Count(input: seq<byte>, c: byte): nat
  {
    multiset(input)[c]
  }

  lemma CountSnoc(init: seq<byte>, last: byte, c: byte)
    ensures Count(init + [last], c) == Count(init, c) + (if last == c then 1 else 0)
  {
    assert multiset(init + [last]) == multiset(init) + multiset{last};
  }

  lemma SplitLast(input: seq<byte>)
    requires |input| > 0
    ensures input == input[..|input| - 1] + [input[|input| - 1]]
  {
  }

  // ---------------------------------------------------------------------
  // Properties of the dispatch
  // ---------------------------------------------------------------------

  /** Taking a batch in two parts has the effect of taking it whole. */
  lemma {:induction false} ApplyKeysAppend(st: LoopState, a: seq<byte>, b: seq<byte>)
    ensures ApplyKeys(st, a + b) == ApplyKeys(ApplyKeys(st, a), b)
    decreases |b|
  {
    if |b| == 0 {
      assert a + b == a;
    } else {
      var ab := a + b;
      assert ab[..|ab| - 1] == a + b[..|b| - 1];
      assert ab[|ab| - 1] == b[|b| - 1];
      ApplyKeysAppend(st, a, b[..|b| - 1]);
    }
  }

  /** The loop goes on after a batch exactly when it was going on and the batch holds no q. */
  lemma {:induction false} QuitIff(st: LoopState, input: seq<byte>)
    ensures ApplyKeys(st, input).shouldGo <==> st.shouldGo && KeyQuit !in input
    decreases |input|
  {
    if |input| > 0 {
      var init := input[..|input| - 1];
      SplitLast(input);
      QuitIff(st, init);
      assert KeyQuit in input <==> KeyQuit in init || input[|input| - 1] == KeyQuit;
    }
  }

  /** Each p flips the pause flag: it ends up flipped exactly when the batch holds an odd number of p. */
  lemma {:induction false} PauseParity(st: LoopState, input: seq<byte>)
    ensures ApplyKeys(st, input).pause <==> (st.pause <==> Count(input, KeyPause) % 2 == 0)
    decreases |input|
  {
    if |input| > 0 {
      var init := input[..|input| - 1];
      SplitLast(input);
      PauseParity(st, init);
      CountSnoc(init, input[|input| - 1], KeyPause);
    }
  }

  /** The heading turns one tick left per h or j and one tick right per l or k. */
  lemma {:induction false} NetRotation(st: LoopState, input: seq<byte>)
    ensures ApplyKeys(st, input).player.angle ==
      st.player.angle + Count(input, KeyLeftH) + Count(input, KeyLeftJ)
                      - Count(input, KeyRightL) - Count(input, KeyRightK)
    decreases |input|
  {
    if |input| > 0 {
      var init := input[..|input| - 1];
      var last := input[|input| - 1];
      SplitLast(input);
      NetRotation(st, init);
      CountSnoc(init, last, KeyLeftH);
      CountSnoc(init, last, KeyLeftJ);
      CountSnoc(init, last, KeyRightL);
      CountSnoc(init, last, KeyRightK);
    }
  }

  /** Keys never move the player, nor touch the input record or the frame counter. */
  lemma {:induction false} KeysKeepPosition(st: LoopState, input: seq<byte>)
    ensures var r := ApplyKeys(st, input);
            r.player.x == st.player.x && r.player.y == st.player.y &&
            r.lastInput == st.lastInput && r.frameNum == st.frameNum
    decreases |input|
  {
    if |input| > 0 {
      KeysKeepPosition(st, input[..|input| - 1]);
    }
  }

  /** A batch without velocity keys leaves the velocity as it was. */
  lemma {:induction false} NoVelocityKeyKeepsVelocity(st: LoopState, input: seq<byte>)
    requires forall j :: 0 <= j < |input| ==> !IsVelocityKey(input[j])
    ensures ApplyKeys(st, input).player.velocity == st.player.velocity
    decreases |input|
  {
    if |input| > 0 {
      NoVelocityKeyKeepsVelocity(st, input[..|input| - 1]);
    }
  }

  /**
   * The last velocity key of a batch decides the velocity, along the
   * heading the player had when that key came; turns after it do not
   * steer the motion.
   */
  lemma LastVelocityKeyWins(st: LoopState, input: seq<byte>, i: nat)
    requires i < |input| && IsVelocityKey(input[i])
    requires forall j :: i < j < |input| ==> !IsVelocityKey(input[j])
    ensures ApplyKeys(st, input).player.velocity ==
      KeyVelocity(input[i], ApplyKeys(st, input[..i]).player.angle)
  {
    assert input == input[..i + 1] + input[i + 1..];
    ApplyKeysAppend(st, input[..i + 1], input[i + 1..]);
    assert input[..i + 1][..i] == input[..i];
    NoVelocityKeyKeepsVelocity(ApplyKeys(st, input[..i + 1]), input[i + 1..]);
  }

  /** A byte that is not a key changes nothing, wherever it comes in the batch. */
  lemma UnrecognisedByteIgnored(st: LoopState, a: seq<byte>, c: byte, b: seq<byte>)
    requires !IsKey(c)
    ensures ApplyKeys(st, a + [c] + b) == ApplyKeys(st, a + b)
  {
    ApplyKeysAppend(st, a + [c], b);
    ApplyKeysAppend(st, a, b);
    assert (a + [c])[..|a + [c]| - 1] == a;
  }

  /** s does what w does: both set the velocity along the heading. */
  lemma BackMovesForward(st: LoopState)
    ensures ApplyKey(st, KeyBack) == ApplyKey(st, KeyForward)
    ensures ApplyKey(st, KeyBack).player.velocity == Moving(st.player.angle)
  {
  }

  // ---------------------------------------------------------------------
  // Input dispatch, as the loop does it
  // ---------------------------------------------------------------------

  /** Lines 53-89 of curse_main: one pass over the batch, updating the loop's variables. */
  method HandleInput(st: LoopState, input: seq<byte>) returns (r: LoopState)
    ensures r == AfterInput(st, input)
  {
    r := st;
    for i := 0 to |input|
      invariant r == ApplyKeys(st, input[..i])
    {
      assert input[..i + 1][..i] == input[..i];
      var c := input[i];
      if c == KeyQuit {
        r := r.(shouldGo := false);
      } else if c == KeyPause {
        r := r.(pause := !r.pause);
      } else if c == KeyLeftH || c == KeyLeftJ {
        r := r.(player := r.player.(angle := r.player.angle + 1));
      } else if c == KeyRightL || c == KeyRightK {
        r := r.(player := r.player.(angle := r.player.angle - 1));
      } else if c == KeyForward {
        r := r.(player := r.player.(velocity := Moving(r.player.angle)));
      } else if c == KeyBack {
        r := r.(player := r.player.(velocity := Moving(r.player.angle)));
      } else if c == KeyStrafeRight {
        r := r.(player := r.player.(velocity := Moving(r.player.angle - QuarterTurn)));
      } else if c == KeyStrafeLeft {
        r := r.(player := r.player.(velocity := Moving(r.player.angle + QuarterTurn)));
      } else if c == KeyStop {
        r := r.(player := r.player.(velocity := Stopped));
      }
    }
    assert input[..|input|] == input;
    if |input| > 0 {
      r := r.(lastInput := input);
    }
  }

  // ---------------------------------------------------------------------
  // The screen
  // ---------------------------------------------------------------------

  const Space: byte := Byte(' ')

  /** The spaces that pad a header row to the terminal's width. */
  function Padding(header: seq<byte>, width: nat): (pad: seq<byte>)
    requires |header| <= width
    ensures |header + pad| == width
    ensures forall i :: 0 <= i < |pad| ==> pad[i] == Space
  {
    seq(width - |header|, _ => Space)
  }

  /**
   * What one frame writes, in order: cursor home, the first header, its
   * padding, the second header, its padding, the encoded view.
   */
  function Screen(width: nat, header1: seq<byte>, header2: seq<byte>, view: seq<byte>): (s: seq<seq<byte>>)
    requires |header1| <= width && |header2| <= width
    ensures |s| == 6 && s[0] == CursorHome && s[5] == view
  {
    [CursorHome, header1, Padding(header1, width), header2, Padding(header2, width), view]
  }

  /** The two header rows and the view fill the terminal: width * height cells. */
  lemma ScreenCoversTerminal(blocks: seq<seq<byte>>, width: nat, height: nat, rays: nat -> Ray,
                             header1: seq<byte>, header2: seq<byte>)
    requires WellFormed(blocks)
    requires height >= 2 && |header1| <= width && |header2| <= width
    ensures |header1 + Padding(header1, width)| + |header2 + Padding(header2, width)|
          + |Frame(blocks, width, height - 2, rays)| == width * height
  {
    assert width * (height - 2) + 2 * width == width * height;
  }

  /** All pieces, concatenated. */
  function Concat(pieces: seq<seq<byte>>): (c: seq<byte>)
    decreases |pieces|
  {
    if |pieces| == 0 then [] else pieces[0] + Concat(pieces[1..])
  }

  /**
   * What the terminal receives from a chain of writes joined by `?`: each
   * write hands over a prefix of its piece, and the chain stops after the
   * first write that returns -1.
   */
  function Emit(pieces: seq<seq<byte>>, rets: seq<int>): seq<byte>
    requires |pieces| == |rets|
    decreases |pieces|
  {
    if |pieces| == 0 then []
    else Written(pieces[0], rets[0]) + (if rets[0] == -1 then [] else Emit(pieces[1..], rets[1..]))
  }

  /** No write of the chain returns -1. */
  function ChainOk(rets: seq<int>): bool
    decreases |rets|
  {
    |rets| == 0 || (rets[0] != -1 && ChainOk(rets[1..]))
  }

  /** ChainOk says that -1 is not among the return values. */
  lemma {:induction false} ChainOkIff(rets: seq<int>)
    ensures ChainOk(rets) <==> -1 !in rets
    decreases |rets|
  {
    if |rets| > 0 {
      ChainOkIff(rets[1..]);
      assert rets == [rets[0]] + rets[1..];
    }
  }

  /** Unfolding ChainOk at write k. */
  lemma ChainOkAt(rets: seq<int>, k: nat)
    requires k < |rets|
    ensures ChainOk(rets[k..]) == (rets[k] != -1 && ChainOk(rets[k + 1..]))
  {
    assert rets[k..][1..] == rets[k + 1..];
  }

  /** Unfolding Emit at piece k. */
  lemma EmitAt(pieces: seq<seq<byte>>, rets: seq<int>, k: nat)
    requires k < |pieces| == |rets|
    ensures Emit(pieces[k..], rets[k..]) ==
      Written(pieces[k], rets[k]) + (if rets[k] == -1 then [] else Emit(pieces[k + 1..], rets[k + 1..]))
  {
    assert pieces[k..][1..] == pieces[k + 1..];
    assert rets[k..][1..] == rets[k + 1..];
  }

  /**
   * Short writes count as success, so the terminal can miss bytes in the
   * middle; when no write is short, the terminal has received a prefix of
   * the intended bytes, however the chain ends.
   */
  lemma {:induction false} EmitIsPrefix(pieces: seq<seq<byte>>, rets: seq<int>)
    requires |pieces| == |rets|
    requires forall i :: 0 <= i < |rets| ==> rets[i] == -1 || rets[i] >= |pieces[i]|
    ensures |Emit(pieces, rets)| <= |Concat(pieces)|
    ensures Emit(pieces, rets) == Concat(pieces)[..|Emit(pieces, rets)|]
    decreases |pieces|
  {
    if |pieces| > 0 {
      var w := Written(pieces[0], rets[0]);
      if rets[0] == -1 {
        assert w == [];
      } else {
        assert w == pieces[0];
        EmitIsPrefix(pieces[1..], rets[1..]);
      }
    }
  }

  /** When every write takes its whole piece, the terminal receives all the bytes. */
  lemma {:induction false} EmitComplete(pieces: seq<seq<byte>>, rets: seq<int>)
    requires |pieces| == |rets|
    requires forall i :: 0 <= i < |rets| ==> rets[i] >= |pieces[i]|
    ensures Emit(pieces, rets) == Concat(pieces)
    decreases |pieces|
  {
    if |pieces| > 0 {
      EmitComplete(pieces[1..], rets[1..]);
    }
  }

  // ---------------------------------------------------------------------
  // The field
  // ---------------------------------------------------------------------

  /** The cell the player stands in, as player_in_wall indexes it (floor, then saturating `as usize`). */
  function PlayerCell(p: Player): (c: (nat, nat))
    ensures p.x >= 0.0 ==> c.0 == p.x.Floor
    ensures p.y >= 0.0 ==> c.1 == p.y.Floor
    ensures p.x < 0.0 ==> c.0 == 0
    ensures p.y < 0.0 ==> c.1 == 0
  {
    (ToUsize(p.x.Floor as real), ToUsize(p.y.Floor as real))
  }

  /** player_in_wall. Indexing outside the field panics; the caller keeps the cell inside. */
  predicate PlayerInWall(blocks: seq<seq<byte>>, p: Player)
    requires WellFormed(blocks)
    requires InGrid(blocks, PlayerCell(p).0, PlayerCell(p).1)
  {
    blocks[PlayerCell(p).0][PlayerCell(p).1] == Wall
  }

  /**
   * A ray starts in the player's cell, so for a player inside the field
   * the ray distance is 0 exactly when the player stands in a wall.
   */
  lemma InWallIffZeroDistance(blocks: seq<seq<byte>>, p: Player, ray: Ray)
    requires WellFormed(blocks)
    requires p.x >= 0.0 && p.y >= 0.0
    requires InGrid(blocks, p.x.Floor, p.y.Floor)
    requires ray(0) == (p.x.Floor, p.y.Floor)
    ensures PlayerInWall(blocks, p) <==> RayDistance(blocks, ray) == 0.0
  {
    if !PlayerInWall(blocks, p) {
      assert Open(blocks, ray, 0);
      assert RayDistance(blocks, ray) >= Delta by {
        var next := 1 as real * Delta;
        if next < TooFarWall {
          assert RayDistance(blocks, ray) == MarchFrom(blocks, ray, 1);
        }
      }
    }
  }

  /** Every ray the frame loop casts for a player starts in the player's cell (src/old/game.rs:67-68). */
  ghost predicate RaysStartAtPlayer(rays: Player -> nat -> Ray)
  {
    forall p: Player, x: nat :: rays(p)(x)(0) == (p.x.Floor, p.y.Floor)
  }

  /** The physics step moves and slows the player but never turns it. */
  ghost predicate KeepsAngle(physics: Player -> Player)
  {
    forall p: Player :: physics(p).angle == p.angle
  }

  /**
   * In every column the frame loop renders, a player inside the field
   * sees a wall at distance 0 exactly when it stands in a wall.
   */
  lemma RenderedInWallIffZeroDistance(blocks: seq<seq<byte>>, rays: Player -> nat -> Ray, p: Player, x: nat)
    requires WellFormed(blocks)
    requires RaysStartAtPlayer(rays)
    requires p.x >= 0.0 && p.y >= 0.0
    requires InGrid(blocks, p.x.Floor, p.y.Floor)
    ensures PlayerInWall(blocks, p) <==> RayDistance(blocks, rays(p)(x)) == 0.0
  {
    InWallIffZeroDistance(blocks, p, rays(p)(x));
  }

  /** The field and the player curse_main starts with. */
  const InitialBlocks: seq<seq<byte>> :=
    [Ascii("#####"), Ascii("#   #"), Ascii("# # #"), Ascii("#   #"), Ascii("# ###")]
  const InitialPlayer: Player := Player(1.5, 1.5, QuarterTurn, Stopped)

  function InitialState(): LoopState
  {
    LoopState(true, false, InitialPlayer, [], 0)
  }

  /** The initial field is a 5 x 5 rectangle and the player starts in an open cell, facing PI / 2. */
  lemma InitialFieldSound()
    ensures WellFormed(InitialBlocks) && |InitialBlocks| == 5 && |InitialBlocks[0]| == 5
    ensures PlayerCell(InitialPlayer) == (1, 1)
    ensures !PlayerInWall(InitialBlocks, InitialPlayer)
  {
    assert (1.5).Floor == 1;
    assert InitialBlocks[1][1] as int == ' ' as int;
  }

  // ---------------------------------------------------------------------
  // One iteration of the loop
  // ---------------------------------------------------------------------

  /** The framebuffer curse_main allocates before the loop: width * (height - 2) marks. */
  method NewViewBuffer(t: Term) returns (buffer: CharBuffer)
    requires t.height >= 2
    ensures fresh(buffer) && fresh(buffer.cells)
    ensures buffer.cells.Length == t.width * (t.height - 2)
    ensures forall i :: 0 <= i < buffer.cells.Length ==> buffer.cells[i] == Marker
  {
    buffer := new CharBuffer(t.width * (t.height - 2), Marker);
  }

  /**
   * Lines 136-147 of curse_main: the six writes of a frame, each joined to
   * the next by `?`, so the first failing write ends the chain.
   */
  method PutScreen(con: Console, width: nat, header1: seq<byte>, header2: seq<byte>, view: seq<char>,
                   encode: seq<char> -> seq<byte>, rets: seq<int>)
    returns (r: Result<(), IoError>)
    requires |header1| <= width && |header2| <= width
    requires |rets| == 6
    modifies con`stdout
    ensures con.stdout == old(con.stdout) + Emit(Screen(width, header1, header2, encode(view)), rets)
    ensures r.Ok? <==> ChainOk(rets)
    ensures r.Err? ==> r.error == WriteFailed
  {
    var screen := Screen(width, header1, header2, encode(view));
    ghost var goal := con.stdout + Emit(screen, rets);
    r := PutHead(con, screen, rets, goal);
    if r.Err? {
      return;
    }
    r := PutPiece(con, screen, rets, 2, goal);
    if r.Err? {
      return;
    }
    r := PutPiece(con, screen, rets, 3, goal);
    if r.Err? {
      return;
    }
    r := PutPiece(con, screen, rets, 4, goal);
    if r.Err? {
      return;
    }
    r := PutView(con, screen, view, encode, rets, goal);
  }

  /** `put_buffer(header)?`: cursor home, then piece 1 of the screen. */
  method PutHead(con: Console, screen: seq<seq<byte>>, rets: seq<int>, ghost goal: seq<byte>)
    returns (r: Result<(), IoError>)
    requires 2 <= |screen| == |rets| && screen[0] == CursorHome
    requires con.stdout + Emit(screen, rets) == goal
    modifies con`stdout
    ensures r.Ok? ==> ChainOk(rets) == ChainOk(rets[2..])
    ensures r.Err? ==> !ChainOk(rets) && r.error == WriteFailed && con.stdout == goal
    ensures r.Ok? ==> con.stdout + Emit(screen[2..], rets[2..]) == goal
  {
    assert screen[0..] == screen && rets[0..] == rets;
    EmitAt(screen, rets, 0);
    EmitAt(screen, rets, 1);
    ChainOkAt(rets, 0);
    ChainOkAt(rets, 1);
    ghost var w0 := Written(screen[0], rets[0]);
    ghost var w1 := Written(screen[1], rets[1]);
    ghost var rest := Emit(screen[2..], rets[2..]);
    r := con.PutBuffer(screen[1], rets[0], rets[1]);
    HeadChain(old(con.stdout), w0, w1, rest, rets[0], rets[1]);
  }

  /** Regrouping the bytes of two chained writes. */
  lemma HeadChain(o: seq<byte>, w0: seq<byte>, w1: seq<byte>, rest: seq<byte>, r0: int, r1: int)
    ensures var out := o + w0 + (if r0 == -1 then [] else w1);
            var all := o + (w0 + (if r0 == -1 then [] else w1 + (if r1 == -1 then [] else rest)));
            (r0 == -1 || r1 == -1 ==> out == all) && (r0 != -1 && r1 != -1 ==> out + rest == all)
  {
    if r0 != -1 && r1 == -1 {
      assert w1 + [] == w1;
    }
  }

  /** Regrouping the bytes of one write in a chain. */
  lemma PieceChain(o: seq<byte>, w: seq<byte>, rest: seq<byte>, r: int)
    ensures r == -1 ==> o + w == o + (w + [])
    ensures r != -1 ==> o + w + rest == o + (w + rest)
  {
    assert w + [] == w;
  }

  /** `put_partial_utf8_buffer(view)?`: the last piece of the screen, the encoded view. */
  method PutView(con: Console, screen: seq<seq<byte>>, view: seq<char>, encode: seq<char> -> seq<byte>,
                 rets: seq<int>, ghost goal: seq<byte>)
    returns (r: Result<(), IoError>)
    requires |screen| == |rets| == 6 && screen[5] == encode(view)
    requires con.stdout + Emit(screen[5..], rets[5..]) == goal
    modifies con`stdout
    ensures r == WriteStatus(rets[5])
    ensures r.Ok? <==> ChainOk(rets[5..])
    ensures con.stdout == goal
  {
    EmitAt(screen, rets, 5);
    ChainOkAt(rets, 5);
    assert screen[6..] == [] && rets[6..] == [];
    r := con.PutPartialUtf8Buffer(view, encode, rets[5]);
  }

  /** One `put_partial_buffer(s)?` of the chain: piece k of the screen. */
  method PutPiece(con: Console, screen: seq<seq<byte>>, rets: seq<int>, k: nat, ghost goal: seq<byte>)
    returns (r: Result<(), IoError>)
    requires k < |screen| == |rets|
    requires con.stdout + Emit(screen[k..], rets[k..]) == goal
    modifies con`stdout
    ensures r == WriteStatus(rets[k])
    ensures r.Ok? ==> ChainOk(rets[k..]) == ChainOk(rets[k + 1..])
    ensures r.Err? ==> !ChainOk(rets[k..])
    ensures r.Ok? ==> con.stdout + Emit(screen[k + 1..], rets[k + 1..]) == goal
    ensures r.Err? ==> con.stdout == goal
  {
    EmitAt(screen, rets, k);
    ChainOkAt(rets, k);
    ghost var w := Written(screen[k], rets[k]);
    ghost var rest := Emit(screen[k + 1..], rets[k + 1..]);
    ghost var before := con.stdout;
    r := con.PutPartialBuffer(screen[k], rets[k]);
    PieceChain(before, w, rest, rets[k]);
  }

  /**
   * One pass of the while loop, entered with should_go set: read the
   * input (reads fail per `fault`), dispatch it, and unless paused, apply
   * the physics step, render into `buffer` and write the screen with the
   * six write calls returning `rets`. An error ends the loop with that
   * error.
   */
  method Iteration(con: Console, t: Term, st: LoopState, blocks: seq<seq<byte>>,
                   rays: Player -> nat -> Ray, physics: Player -> Player, buffer: CharBuffer,
                   fault: nat -> bool, header1: seq<byte>, header2: seq<byte>,
                   encode: seq<char> -> seq<byte>, rets: seq<int>)
    returns (r: Result<LoopState, IoError>)
    requires st.shouldGo
    requires WellFormed(blocks)
    requires RaysStartAtPlayer(rays) && KeepsAngle(physics)
    requires t.width > 0 && t.height > 2
    requires |header1| <= t.width && |header2| <= t.width
    requires |rets| == 6
    modifies con`stdin, con`stdout, buffer, buffer.cells
    ensures con.stdin == ReadAll(old(con.stdin), fault, 0).1
    ensures ReadAll(old(con.stdin), fault, 0).0.Err? ==>
      r == Err(ReadFailed) && con.stdout == old(con.stdout) &&
      buffer.cells == old(buffer.cells) && buffer.cells[..] == old(buffer.cells[..])
    ensures ReadAll(old(con.stdin), fault, 0).0.Ok? ==>
      var next := AfterInput(st, old(con.stdin));
      if next.pause then
        r == Ok(next) && con.stdout == old(con.stdout) &&
        buffer.cells == old(buffer.cells) && buffer.cells[..] == old(buffer.cells[..])
      else
        var moved := next.(player := physics(next.player));
        var view := Frame(blocks, t.width, t.height - 2, rays(moved.player));
        buffer.cells[..] == view &&
        con.stdout == old(con.stdout) + Emit(Screen(t.width, header1, header2, encode(view)), rets) &&
        (r.Ok? <==> ChainOk(rets)) &&
        (r.Ok? ==> r.value == moved.(frameNum := moved.frameNum + 1)) &&
        (r.Err? ==> r.error == WriteFailed)
  {
    var input := con.GetInputBuffer(fault);
    if input.Err? {
      return Err(input.error);
    }
    var next := HandleInput(st, input.value);
    if next.pause {
      return Ok(next);
    }
    next := next.(player := physics(next.player));
    DrawScene(Field(blocks, next.player), t.width, t.height - 2, rays(next.player), buffer);
    var w := PutScreen(con, t.width, header1, header2, buffer.cells[..], encode, rets);
    if w.Err? {
      return Err(w.error);
    }
    r := Ok(next.(frameNum := next.frameNum + 1));
  }
}
