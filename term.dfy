/**
 * The raw terminal session of src/term.rs.
 *
 * The process-wide state the session touches is one `Console` object: the
 * exclusivity flag TERM_EXISTS, the bytes the terminal has received on
 * standard output (append-only), the bytes typed and not yet read, the
 * terminal settings currently installed and what the device reports about
 * itself. Every libc call is replaced by its return value, given as a
 * parameter: `write` returns -1 or the number of bytes it took, the
 * attribute and ioctl calls return 0 or an error code.
 */
module Terminal {
  import opened Common

  const Esc: byte := 27
  /** Enter the alternate screen, hide the cursor. */
  const EnterScreen: seq<byte> := [Esc] + Ascii("[?1049h") + [Esc] + Ascii("[?25l")
  /** Leave the alternate screen, show the cursor. */
  const LeaveScreen: seq<byte> := [Esc] + Ascii("[?1049l") + [Esc] + Ascii("[?25h")
  /** Move the cursor to the top-left cell. */
  const CursorHome: seq<byte> := [Esc] + Ascii("[H")

  datatype IoError =
    | AlreadyExists           // another Term is live
    | WriteFailed             // write returned -1
    | GetAttrFailed(code: int)
    | SetAttrFailed(code: int)
    | NotATty                 // stdout is not a terminal
    | WinSizeFailed(code: int)
    | ZeroDimensions          // the terminal reported 0 rows or 0 columns
    | ReadFailed              // read returned -1

  // ---------------------------------------------------------------------
  // termios (Linux layout and flag values)
  // ---------------------------------------------------------------------

  const Nccs: nat := 32
  type ControlChars = s: seq<bv8> | |s| == Nccs
    witness [0, 0, 0, 0, 0, 0, 0, 0, 0, 0, 0, 0, 0, 0, 0, 0,
             0, 0, 0, 0, 0, 0, 0, 0, 0, 0, 0, 0, 0, 0, 0, 0]

  datatype Termios = Termios(
    iflag: bv32, oflag: bv32, cflag: bv32, lflag: bv32,
    line: bv8, cc: ControlChars, ispeed: bv32, ospeed: bv32)

  const IXON: bv32 := 0x400
  const ICRNL: bv32 := 0x100
  const ISTRIP: bv32 := 0x20
  const OPOST: bv32 := 0x1
  const ECHO: bv32 := 0x8
  const ICANON: bv32 := 0x2
  const ISIG: bv32 := 0x1
  const IEXTEN: bv32 := 0x8000
  const VTIME: nat := 5
  const VMIN: nat := 6

  /** The bits raw mode clears in each flag word. */
  const RawInputBits: bv32 := IXON | ICRNL | ISTRIP
  const RawOutputBits: bv32 := OPOST
  const RawLocalBits: bv32 := ECHO | ICANON | ISIG | IEXTEN

  /**
   * The settings `new` installs: the saved ones with the raw-mode bits
   * cleared and reads made non-blocking (VTIME = VMIN = 0).
   */
  function RawSettings(t: Termios): Termios
  {
    t.(iflag := t.iflag & !RawInputBits,
       oflag := t.oflag & !RawOutputBits,
       lflag := t.lflag & !RawLocalBits,
       cc := t.cc[VTIME := 0][VMIN := 0])
  }

  /**
   * Raw mode clears exactly the raw-mode bits of the input, output and
   * local flags (echo and canonical input among them), zeroes VTIME and
   * VMIN, and keeps everything else.
   */
  lemma RawSettingsSpec(t: Termios)
    ensures var r := RawSettings(t);
      && r.iflag & RawInputBits == 0 && r.iflag | RawInputBits == t.iflag | RawInputBits
      && r.oflag & RawOutputBits == 0 && r.oflag | RawOutputBits == t.oflag | RawOutputBits
      && r.lflag & RawLocalBits == 0 && r.lflag | RawLocalBits == t.lflag | RawLocalBits
      && r.lflag & ECHO == 0 && r.lflag & ICANON == 0
      && r.cc[VTIME] == 0 && r.cc[VMIN] == 0
      && (forall i :: 0 <= i < Nccs && i != VTIME && i != VMIN ==> r.cc[i] == t.cc[i])
      && r.cflag == t.cflag && r.line == t.line && r.ispeed == t.ispeed && r.ospeed == t.ospeed
  {
  }

  /** Raw mode applied to raw settings changes nothing. */
  lemma RawSettingsIdempotent(t: Termios)
    ensures RawSettings(RawSettings(t)) == RawSettings(t)
  {
    var r := RawSettings(t);
    assert r.cc[VTIME := 0][VMIN := 0] == r.cc;
  }

  // ---------------------------------------------------------------------
  // stdout_write and terminal_size
  // ---------------------------------------------------------------------

  /** stdout_write's verdict on write's return value: only -1 is an error. */
  function WriteStatus(ret: int): (r: Result<(), IoError>)
    ensures r.Err? <==> ret == -1
    ensures r.Err? ==> r.error == WriteFailed
  {
    if ret == -1 then Err(WriteFailed) else Ok(())
  }

  /** The bytes of s a write that returned `ret` hands to the terminal: a prefix, all of s for a full write. */
  function Written(s: seq<byte>, ret: int): (w: seq<byte>)
    ensures |w| <= |s| && w == s[..|w|]
    ensures ret < 0 ==> w == []
    ensures ret >= |s| ==> w == s
    ensures 0 <= ret <= |s| ==> |w| == ret
  {
    if ret < 0 then [] else if ret >= |s| then s else s[..ret]
  }

  /** The terminal's (cols, rows), given isatty's answer, the ioctl's return code and the size it filled in. */
  datatype WinSize = WinSize(row: nat, col: nat)

  function TerminalSize(isTty: bool, ioctlCode: int, ws: WinSize): (r: Result<(nat, nat), IoError>)
    ensures r.Ok? <==> isTty && ioctlCode == 0 && ws.row != 0 && ws.col != 0
    ensures r.Ok? ==> r.value == (ws.col, ws.row)
    ensures !isTty ==> r == Err(NotATty)
    ensures isTty && ioctlCode != 0 ==> r == Err(WinSizeFailed(ioctlCode))
    ensures isTty && ioctlCode == 0 && (ws.row == 0 || ws.col == 0) ==> r == Err(ZeroDimensions)
  {
    if !isTty then Err(NotATty)
    else if ioctlCode != 0 then Err(WinSizeFailed(ioctlCode))
    else if ws.row == 0 || ws.col == 0 then Err(ZeroDimensions)
    else Ok((ws.col as nat, ws.row as nat))
  }

  // ---------------------------------------------------------------------
  // Reading input
  // ---------------------------------------------------------------------

  const ChunkSize: nat := 8

  /**
   * get_input_buffer as evidently intended: read chunks of ChunkSize bytes
   * until one comes back short, and concatenate them. `fault(n)` says that
   * the n-th read of the call returns -1. Gives the result and the bytes
   * left unread.
   */
  function ReadAll(pending: seq<byte>, fault: nat -> bool, call: nat): (r: (Result<seq<byte>, IoError>, seq<byte>))
    ensures r.0.Ok? ==> r.0.value == pending && r.1 == []
    ensures r.0.Err? ==> r.0.error == ReadFailed && |r.1| <= |pending| && r.1 == pending[|pending| - |r.1|..]
    decreases |pending|
  {
    if fault(call) then (Err(ReadFailed), pending)
    else if |pending| < ChunkSize then (Ok(pending), [])
    else
      var (rest, left) := ReadAll(pending[ChunkSize..], fault, call + 1);
      (if rest.Ok? then Ok(pending[..ChunkSize] + rest.value) else rest, left)
  }

  /** The result of a read loop with `prefix` already collected. */
  function Prepend(prefix: seq<byte>, r: (Result<seq<byte>, IoError>, seq<byte>)): (Result<seq<byte>, IoError>, seq<byte>)
  {
    (if r.0.Ok? then Ok(prefix + r.0.value) else r.0, r.1)
  }

  /** One full chunk read: it moves from what is pending to what is collected. */
  lemma ReadAllStep(prefix: seq<byte>, pending: seq<byte>, fault: nat -> bool, call: nat)
    requires !fault(call) && |pending| >= ChunkSize
    ensures Prepend(prefix, ReadAll(pending, fault, call))
         == Prepend(prefix + pending[..ChunkSize], ReadAll(pending[ChunkSize..], fault, call + 1))
  {
    var rest := ReadAll(pending[ChunkSize..], fault, call + 1).0;
    if rest.Ok? {
      assert prefix + (pending[..ChunkSize] + rest.value) == (prefix + pending[..ChunkSize]) + rest.value;
    }
  }

  /** The last, short chunk: the read ends with everything collected. */
  lemma ReadAllShort(prefix: seq<byte>, pending: seq<byte>, fault: nat -> bool, call: nat)
    requires !fault(call) && |pending| < ChunkSize
    ensures Prepend(prefix, ReadAll(pending, fault, call)) == (Ok(prefix + pending), [])
  {
  }

  /** The read succeeds exactly when none of the |pending| / 8 + 1 reads it makes fails. */
  lemma {:induction false} ReadAllSucceedsIff(pending: seq<byte>, fault: nat -> bool, call: nat)
    ensures ReadAll(pending, fault, call).0.Ok? <==>
      forall n :: call <= n <= call + |pending| / ChunkSize ==> !fault(n)
    decreases |pending|
  {
    if !fault(call) && |pending| >= ChunkSize {
      ReadAllSucceedsIff(pending[ChunkSize..], fault, call + 1);
      assert |pending[ChunkSize..]| / ChunkSize == |pending| / ChunkSize - 1;
    }
  }

  /**
   * get_input_buffer as written. `full_buffer.append(&mut buffer)` leaves
   * `buffer` empty, so a second read asks for 0 bytes, returns 0 and ends
   * the loop: a call returns at most ChunkSize bytes.
   */
  function ReadAsWritten(pending: seq<byte>, fault: nat -> bool): (r: (Result<seq<byte>, IoError>, seq<byte>))
  {
    if fault(0) then (Err(ReadFailed), pending)
    else if |pending| < ChunkSize then (Ok(pending), [])
    else if fault(1) then (Err(ReadFailed), pending[ChunkSize..])
    else (Ok(pending[..ChunkSize]), pending[ChunkSize..])
  }

  /** As written, with more than ChunkSize bytes waiting and no failing read, the call leaves bytes unread. */
  lemma ReadAsWrittenStopsAtOneChunk(pending: seq<byte>, fault: nat -> bool)
    requires |pending| > ChunkSize
    requires !fault(0) && !fault(1)
    ensures ReadAsWritten(pending, fault).0 == Ok(pending[..ChunkSize])
    ensures ReadAsWritten(pending, fault).0 != ReadAll(pending, fault, 0).0
  {
    ReadAllSucceedsIff(pending, fault, 0);
    if ReadAll(pending, fault, 0).0.Ok? {
      assert |pending[..ChunkSize]| != |pending|;
    }
  }

  /** A concrete case: nine bytes waiting, the as-written read returns eight. */
  lemma NineBytesWaiting()
    ensures var nine: seq<byte> := [1, 2, 3, 4, 5, 6, 7, 8, 9];
            ReadAsWritten(nine, _ => false) == (Ok([1, 2, 3, 4, 5, 6, 7, 8]), [9])
  {
    var nine: seq<byte> := [1, 2, 3, 4, 5, 6, 7, 8, 9];
    assert nine[..ChunkSize] == [1, 2, 3, 4, 5, 6, 7, 8];
    assert nine[ChunkSize..] == [9];
  }

  // ---------------------------------------------------------------------
  // The session
  // ---------------------------------------------------------------------

  /** A live session: the settings to restore and the terminal's size. */
  datatype Term = Term(originalSettings: Termios, width: nat, height: nat)

  datatype Panic =
    | WriteUnwrap             // the leave-screen write failed
    | RestoreUnwrap(code: int) // tcsetattr of the saved settings failed
    | DoubleRestore           // the flag was already clear

  datatype DropOutcome = Restored | Panicked(reason: Panic)

  class Console {
    /** TERM_EXISTS */
    var termExists: bool
    /** Everything the terminal has received on standard output. */
    var stdout: seq<byte>
    /** Bytes typed and not yet read. */
    var stdin: seq<byte>
    /** The settings installed on the terminal. */
    var attrs: Termios
    /** isatty's answer and the window size the ioctl reports. */
    var isTty: bool
    var winsize: WinSize

    constructor (tty: bool, size: WinSize, settings: Termios, typed: seq<byte>)
      ensures !termExists && stdout == [] && stdin == typed
      ensures attrs == settings && isTty == tty && winsize == size
    {
      termExists := false;
      stdout := [];
      stdin := typed;
      attrs := settings;
      isTty := tty;
      winsize := size;
    }

    /** stdout_write: one write call that returned `ret`. */
    method Write(s: seq<byte>, ret: int) returns (r: Result<(), IoError>)
      modifies this`stdout
      ensures r == WriteStatus(ret)
      ensures stdout == old(stdout) + Written(s, ret)
    {
      stdout := stdout + Written(s, ret);
      r := WriteStatus(ret);
    }

    method CursorReset(ret: int) returns (r: Result<(), IoError>)
      modifies this`stdout
      ensures r == WriteStatus(ret)
      ensures stdout == old(stdout) + Written(CursorHome, ret)
    {
      r := Write(CursorHome, ret);
    }

    /** A full repaint: cursor home, then s. The second write happens only if the first did not fail. */
    method PutBuffer(s: seq<byte>, homeRet: int, ret: int) returns (r: Result<(), IoError>)
      modifies this`stdout
      ensures r.Err? <==> homeRet == -1 || ret == -1
      ensures r.Err? ==> r.error == WriteFailed
      ensures stdout == old(stdout) + Written(CursorHome, homeRet) + (if homeRet == -1 then [] else Written(s, ret))
    {
      r := CursorReset(homeRet);
      if r.Err? {
        return;
      }
      r := Write(s, ret);
    }

    /** put_utf8_buffer; the UTF-8 encoding of the characters is the parameter `encode`. */
    method PutUtf8Buffer(s: seq<char>, encode: seq<char> -> seq<byte>, homeRet: int, ret: int) returns (r: Result<(), IoError>)
      modifies this`stdout
      ensures r.Err? <==> homeRet == -1 || ret == -1
      ensures stdout == old(stdout) + Written(CursorHome, homeRet) + (if homeRet == -1 then [] else Written(encode(s), ret))
    {
      r := PutBuffer(encode(s), homeRet, ret);
    }

    method PutPartialBuffer(s: seq<byte>, ret: int) returns (r: Result<(), IoError>)
      modifies this`stdout
      ensures r == WriteStatus(ret)
      ensures stdout == old(stdout) + Written(s, ret)
    {
      r := Write(s, ret);
    }

    method PutPartialUtf8Buffer(s: seq<char>, encode: seq<char> -> seq<byte>, ret: int) returns (r: Result<(), IoError>)
      modifies this`stdout
      ensures r == WriteStatus(ret)
      ensures stdout == old(stdout) + Written(encode(s), ret)
    {
      r := PutPartialBuffer(encode(s), ret);
    }

    /**
     * Term::new. The flag is swapped to true first; every later failure
     * returns with the flag still set, since no Term exists to clear it.
     */
    method New(writeRet: int, getCode: int, setCode: int, ioctlCode: int) returns (r: Result<Term, IoError>)
      modifies this`termExists, this`stdout, this`attrs
      ensures termExists
      ensures old(termExists) ==> r == Err(AlreadyExists) && stdout == old(stdout) && attrs == old(attrs)
      ensures !old(termExists) ==> stdout == old(stdout) + Written(EnterScreen, writeRet)
      ensures !old(termExists) && writeRet == -1 ==> r == Err(WriteFailed)
      ensures !old(termExists) && writeRet != -1 && getCode != 0 ==> r == Err(GetAttrFailed(getCode))
      ensures !old(termExists) && writeRet != -1 && getCode == 0 && setCode != 0 ==> r == Err(SetAttrFailed(setCode))
      ensures attrs == if !old(termExists) && writeRet != -1 && getCode == 0 && setCode == 0
                       then RawSettings(old(attrs)) else old(attrs)
      ensures !old(termExists) && writeRet != -1 && getCode == 0 && setCode == 0 ==>
        r == match TerminalSize(isTty, ioctlCode, winsize)
             case Ok(size) => Ok(Term(old(attrs), size.0, size.1))
             case Err(e) => Err(e)
    {
      var wasTerminal := termExists;
      termExists := true;
      if wasTerminal {
        return Err(AlreadyExists);
      }
      var w := Write(EnterScreen, writeRet);
      if w.Err? {
        return Err(w.error);
      }
      if getCode != 0 {
        return Err(GetAttrFailed(getCode));
      }
      var terminfo := attrs;
      var newInfo := terminfo;
      newInfo := newInfo.(iflag := newInfo.iflag & !RawInputBits);
      newInfo := newInfo.(oflag := newInfo.oflag & !RawOutputBits);
      newInfo := newInfo.(lflag := newInfo.lflag & !RawLocalBits);
      newInfo := newInfo.(cc := newInfo.cc[VTIME := 0]);
      newInfo := newInfo.(cc := newInfo.cc[VMIN := 0]);
      assert newInfo == RawSettings(terminfo);
      if setCode != 0 {
        return Err(SetAttrFailed(setCode));
      }
      attrs := newInfo;
      var size := TerminalSize(isTty, ioctlCode, winsize);
      if size.Err? {
        return Err(size.error);
      }
      r := Ok(Term(terminfo, size.value.0, size.value.1));
    }

    /**
     * Drop for Term: leave the alternate screen, restore the saved
     * settings, clear the flag. Each step panics on failure, and clearing
     * a flag that is already clear panics too.
     */
    method Drop(t: Term, writeRet: int, setCode: int) returns (o: DropOutcome)
      modifies this`termExists, this`stdout, this`attrs
      ensures stdout == old(stdout) + Written(LeaveScreen, writeRet)
      ensures writeRet == -1 ==> o == Panicked(WriteUnwrap) && attrs == old(attrs) && termExists == old(termExists)
      ensures writeRet != -1 && setCode != 0 ==>
        o == Panicked(RestoreUnwrap(setCode)) && attrs == old(attrs) && termExists == old(termExists)
      ensures writeRet != -1 && setCode == 0 ==>
        attrs == t.originalSettings && !termExists &&
        o == if old(termExists) then Restored else Panicked(DoubleRestore)
    {
      var w := Write(LeaveScreen, writeRet);
      if w.Err? {
        return Panicked(WriteUnwrap);
      }
      if setCode != 0 {
        return Panicked(RestoreUnwrap(setCode));
      }
      attrs := t.originalSettings;
      var wasTerminal := termExists;
      termExists := false;
      if !wasTerminal {
        return Panicked(DoubleRestore);
      }
      o := Restored;
    }

    /**
     * get_input_buffer as evidently intended: every read asks for
     * ChunkSize bytes.
     */
    method GetInputBuffer(fault: nat -> bool) returns (r: Result<seq<byte>, IoError>)
      modifies this`stdin
      ensures (r, stdin) == ReadAll(old(stdin), fault, 0)
      ensures r.Ok? ==> r.value == old(stdin) && stdin == []
    {
      var fullBuffer: seq<byte> := [];
      var call: nat := 0;
      assert Prepend(fullBuffer, ReadAll(stdin, fault, call)) == ReadAll(stdin, fault, call) by {
        var rest := ReadAll(stdin, fault, call).0;
        if rest.Ok? {
          assert [] + rest.value == rest.value;
        }
      }
      while true
        invariant ReadAll(old(stdin), fault, 0) == Prepend(fullBuffer, ReadAll(stdin, fault, call))
        decreases |stdin|
      {
        if fault(call) {
          return Err(ReadFailed);
        }
        var size := if |stdin| < ChunkSize then |stdin| else ChunkSize;
        var buffer := stdin[..size];
        ghost var before := stdin;
        ghost var oldFull := fullBuffer;
        stdin := stdin[size..];
        fullBuffer := fullBuffer + buffer;
        call := call + 1;
        if size < ChunkSize {
          assert buffer == before && stdin == [];
          ReadAllShort(oldFull, before, fault, call - 1);
          break;
        }
        ReadAllStep(oldFull, before, fault, call - 1);
      }
      r := Ok(fullBuffer);
    }

    /**
     * get_input_buffer as written: the buffer handed to read is emptied by
     * the append, so the second read asks for 0 bytes.
     */
    method GetInputBufferAsWritten(fault: nat -> bool) returns (r: Result<seq<byte>, IoError>)
      modifies this`stdin
      ensures (r, stdin) == ReadAsWritten(old(stdin), fault)
    {
      var fullBuffer: seq<byte> := [];
      var buffer: seq<byte> := seq(ChunkSize, _ => 0);
      var call: nat := 0;
      while true
        invariant call <= 1
        invariant call == 0 ==> |buffer| == ChunkSize && fullBuffer == [] && stdin == old(stdin)
        invariant call == 1 ==> (!fault(0) && buffer == [] && |old(stdin)| >= ChunkSize &&
          fullBuffer == old(stdin)[..ChunkSize] && stdin == old(stdin)[ChunkSize..])
        decreases |buffer|
      {
        if fault(call) {
          return Err(ReadFailed);
        }
        var size := if |stdin| < |buffer| then |stdin| else |buffer|;
        ghost var before := stdin;
        buffer := stdin[..size];
        stdin := stdin[size..];
        fullBuffer := fullBuffer + buffer;
        buffer := [];
        call := call + 1;
        if size < ChunkSize {
          if call == 1 {
            assert |before| < ChunkSize && fullBuffer == before && stdin == [];
          } else {
            assert size == 0 && fullBuffer == old(stdin)[..ChunkSize];
          }
          break;
        }
      }
      r := Ok(fullBuffer);
    }
  }

  /**
   * Exclusivity: a second open while a session is live fails, and once the
   * session is closed the terminal's settings are back and a new session
   * can be opened. All calls here succeed.
   */
  method ExclusiveSession(con: Console)
    requires !con.termExists
    requires con.isTty && con.winsize.row > 0 && con.winsize.col > 0
    modifies con
    ensures !con.termExists && con.attrs == old(con.attrs)
    ensures con.stdout == old(con.stdout) + EnterScreen + LeaveScreen + EnterScreen + LeaveScreen
  {
    var first := con.New(|EnterScreen|, 0, 0, 0);
    assert first == Ok(Term(old(con.attrs), con.winsize.col, con.winsize.row));
    assert con.attrs == RawSettings(old(con.attrs));
    var second := con.New(|EnterScreen|, 0, 0, 0);
    assert second == Err(AlreadyExists);
    var closed := con.Drop(first.value, |LeaveScreen|, 0);
    assert closed == Restored && con.attrs == old(con.attrs);
    var again := con.New(|EnterScreen|, 0, 0, 0);
    assert again.Ok?;
    closed := con.Drop(again.value, |LeaveScreen|, 0);
    assert closed == Restored;
  }
}
