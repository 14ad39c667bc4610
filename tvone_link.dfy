/**
 * The RS232 link to the TV One processor: the 8-byte write request, its
 * 8-bit checksum, the 20-character ASCII frame that carries both, and the
 * acknowledgement that decides whether a command succeeded.
 */
module TVOneLink {
  import opened Wrappers
  import opened TVOneCodes

  newtype uint8 = x: int | 0 <= x < 256

  /** The command byte of a write request, 1 << 2. */
  const WriteRequest: uint8 := 4
  const RequestLength: int := 8
  /** The acknowledgement buffer holds the first 20 reply characters. */
  const AckLength: int := 20

  /** What a store into a `uint8_t` keeps: the low eight bits. */
  function Low8(x: int): uint8
  {
    (x % 256) as uint8
  }

  /**
   * The request bytes: the write command, channel, window, the function
   * code's high and low byte, and the payload's bits 23-16, 15-8 and 7-0.
   * A right shift of a negative `int32_t` keeps the sign, that is, it
   * divides rounding down, which is what `/` by a positive divisor does.
   * The bytes keep the function code modulo 2^16 and the payload modulo
   * 2^24, and nothing else of them.
   */
  function RequestBytes(channel: uint8, window: uint8, func: int, payload: int): (cmd: seq<uint8>)
    ensures |cmd| == RequestLength
    ensures cmd[0] == WriteRequest && cmd[1] == channel && cmd[2] == window
    ensures cmd[3] as int * 0x100 + cmd[4] as int == func % 0x1_0000
    ensures cmd[5] as int * 0x1_0000 + cmd[6] as int * 0x100 + cmd[7] as int == payload % 0x100_0000
  {
    TwoBytes(func);
    ThreeBytes(payload);
    [WriteRequest, channel, window, Low8(func / 0x100), Low8(func),
     Low8(payload / 0x1_0000), Low8(payload / 0x100), Low8(payload)]
  }

  /** Division by 2^16 and its remainder are fixed by any quotient and in-range remainder. */
  lemma DivMod16(x: int, k: int, m: int)
    requires 0 <= m < 0x1_0000 && x == k * 0x1_0000 + m
    ensures x / 0x1_0000 == k && x % 0x1_0000 == m
  {
  }

  /** Division by 2^24 and its remainder are fixed by any quotient and in-range remainder. */
  lemma DivMod24(x: int, k: int, m: int)
    requires 0 <= m < 0x100_0000 && x == k * 0x100_0000 + m
    ensures x / 0x100_0000 == k && x % 0x100_0000 == m
  {
  }

  /** The high and low byte of x make up x modulo 2^16. */
  lemma TwoBytes(x: int)
    ensures Low8(x / 0x100) as int * 0x100 + Low8(x) as int == x % 0x1_0000
  {
    var q := x / 0x100;
    var r := x % 0x100;
    var m := q % 0x100;
    assert x == q * 0x100 + r;
    assert q == (q / 0x100) * 0x100 + m;
    DivMod16(x, q / 0x100, m * 0x100 + r);
  }

  /** Bits 23-16, 15-8 and 7-0 of x make up x modulo 2^24. */
  lemma ThreeBytes(x: int)
    ensures Low8(x / 0x1_0000) as int * 0x1_0000 + Low8(x / 0x100) as int * 0x100 + Low8(x) as int == x % 0x100_0000
  {
    var q := x / 0x100;
    var r := x % 0x100;
    var m := q % 0x1_0000;
    assert x == q * 0x100 + r;
    assert q == (q / 0x1_0000) * 0x1_0000 + m;
    assert x / 0x1_0000 == q / 0x100 by {
      assert q == (q / 0x100) * 0x100 + q % 0x100;
      DivMod16(x, q / 0x100, (q % 0x100) * 0x100 + r);
    }
    TwoBytes(q);
    DivMod24(x, q / 0x1_0000, m * 0x100 + r);
  }

  /** The plain sum of some bytes. */
  function Sum(bytes: seq<uint8>): int
  {
    if |bytes| == 0 then 0 else Sum(bytes[..|bytes| - 1]) + bytes[|bytes| - 1] as int
  }

  lemma SumSnoc(bytes: seq<uint8>, k: int)
    requires 0 <= k < |bytes|
    ensures Sum(bytes[..k + 1]) == Sum(bytes[..k]) + bytes[k] as int
  {
    assert bytes[..k + 1][..k] == bytes[..k];
  }

  /** The running sums of an eight-byte request. */
  lemma SumPrefixes(cmd: seq<uint8>, s1: int, s2: int, s3: int, s4: int, s5: int, s6: int, s7: int, s8: int)
    requires |cmd| == 8
    requires s1 == cmd[0] as int && s2 == s1 + cmd[1] as int && s3 == s2 + cmd[2] as int && s4 == s3 + cmd[3] as int
    requires s5 == s4 + cmd[4] as int && s6 == s5 + cmd[5] as int && s7 == s6 + cmd[6] as int && s8 == s7 + cmd[7] as int
    ensures Sum(cmd) == s8
  {
    assert Sum(cmd[..0]) == 0;
    SumSnoc(cmd, 0);
    SumSnoc(cmd, 1);
    SumSnoc(cmd, 2);
    SumSnoc(cmd, 3);
    SumSnoc(cmd, 4);
    SumSnoc(cmd, 5);
    SumSnoc(cmd, 6);
    SumSnoc(cmd, 7);
    assert cmd[..8] == cmd;
  }

  /** The checksum: the sum of the bytes in a `uint8_t`, which wraps. */
  function Checksum(bytes: seq<uint8>): (c: uint8)
    ensures (c as int - Sum(bytes)) % 256 == 0
  {
    Low8(Sum(bytes))
  }

  lemma {:induction false} SumUpdate(bytes: seq<uint8>, i: int, b: uint8)
    requires 0 <= i < |bytes|
    ensures Sum(bytes[i := b]) == Sum(bytes) - bytes[i] as int + b as int
    decreases |bytes|
  {
    var last := |bytes| - 1;
    if i < last {
      assert bytes[i := b][..last] == bytes[..last][i := b];
      SumUpdate(bytes[..last], i, b);
    } else {
      assert bytes[i := b][..last] == bytes[..last];
    }
  }

  /**
   * The checksum catches any change to a single byte: two byte values
   * differ by less than 256, so their sums differ modulo 256.
   */
  lemma ChecksumDetectsOneByte(bytes: seq<uint8>, i: int, b: uint8)
    requires 0 <= i < |bytes| && b != bytes[i]
    ensures Checksum(bytes[i := b]) != Checksum(bytes)
  {
    SumUpdate(bytes, i, b);
  }

  /** The checksum loop of the command, over the request buffer. */
  method ChecksumOf(cmd: array<uint8>) returns (checksum: uint8)
    ensures checksum == Checksum(cmd[..])
  {
    checksum := 0;
    var i := 0;
    while i < cmd.Length
      invariant 0 <= i <= cmd.Length
      invariant checksum == Checksum(cmd[..i])
    {
      assert cmd[..i + 1][..i] == cmd[..i];
      checksum := Low8(checksum as int + cmd[i] as int);
      i := i + 1;
    }
    assert cmd[..i] == cmd[..];
  }

  // ---------------------------------------------------------------------
  // The ASCII frame.
  // ---------------------------------------------------------------------

  /** An uppercase hexadecimal digit, as `%X` prints it. */
  function HexDigit(n: int): char
    requires 0 <= n < 16
  {
    if n < 10 then ('0' as int + n) as char else ('A' as int + n - 10) as char
  }

  /** The value of an uppercase hexadecimal digit; anything else is refused. */
  function HexValue(c: char): (v: Option<int>)
    ensures v.Some? ==> 0 <= v.value < 16
  {
    if '0' <= c <= '9' then Some(c as int - '0' as int)
    else if 'A' <= c <= 'F' then Some(c as int - 'A' as int + 10)
    else None
  }

  lemma HexDigitValue(n: int)
    requires 0 <= n < 16
    ensures HexValue(HexDigit(n)) == Some(n)
  {
  }

  /** `%02X` of one byte. */
  function HexPair(b: uint8): string
  {
    [HexDigit(b as int / 16), HexDigit(b as int % 16)]
  }

  function HexPairs(bytes: seq<uint8>): (s: string)
    ensures |s| == 2 * |bytes|
  {
    if |bytes| == 0 then "" else HexPair(bytes[0]) + HexPairs(bytes[1..])
  }

  /** Read back two hexadecimal digits per byte; an odd length or a stray character is refused. */
  function ParsePairs(s: string): (r: Option<seq<uint8>>)
    ensures r.Some? ==> 2 * |r.value| == |s|
    decreases |s|
  {
    if |s| == 0 then Some([])
    else if |s| == 1 then None
    else match (HexValue(s[0]), HexValue(s[1]), ParsePairs(s[2..]))
      case (Some(high), Some(low), Some(rest)) => Some([(high * 16 + low) as uint8] + rest)
      case _ => None
  }

  lemma {:induction false} ParsePairsOfHexPairs(bytes: seq<uint8>)
    ensures ParsePairs(HexPairs(bytes)) == Some(bytes)
    decreases |bytes|
  {
    if |bytes| > 0 {
      var s := HexPairs(bytes);
      assert s[2..] == HexPairs(bytes[1..]);
      HexDigitValue(bytes[0] as int / 16);
      HexDigitValue(bytes[0] as int % 16);
      ParsePairsOfHexPairs(bytes[1..]);
      assert [bytes[0]] + bytes[1..] == bytes;
    }
  }

  lemma {:induction false} HexPairsOfParsePairs(s: string, bytes: seq<uint8>)
    requires ParsePairs(s) == Some(bytes)
    ensures HexPairs(bytes) == s
    decreases |s|
  {
    if |s| > 0 {
      HexPairsOfParsePairs(s[2..], bytes[1..]);
      assert s == s[..2] + s[2..];
    }
  }

  /**
   * The frame `F%02X...%02X\r`: 'F', the request bytes and their checksum
   * as uppercase hexadecimal pairs, and a carriage return.
   */
  function Frame(cmd: seq<uint8>): (f: string)
    ensures |f| == 2 * |cmd| + 4
    ensures f[0] == 'F' && f[|f| - 1] == '\r'
  {
    "F" + HexPairs(cmd + [Checksum(cmd)]) + "\r"
  }

  /** The processor's reading of a frame: the request bytes, when the framing, digits and checksum are right. */
  function ParseFrame(f: string): (r: Option<seq<uint8>>)
    ensures r.Some? ==> |f| == 2 * |r.value| + 4 && f[0] == 'F' && f[|f| - 1] == '\r'
  {
    if |f| < 2 || f[0] != 'F' || f[|f| - 1] != '\r' then None
    else match ParsePairs(f[1..|f| - 1])
      case Some(bytes) =>
        if |bytes| > 0 && bytes[|bytes| - 1] == Checksum(bytes[..|bytes| - 1])
        then Some(bytes[..|bytes| - 1]) else None
      case None => None
  }

  /** A frame reads back as the bytes it was built from. */
  lemma FrameRoundTrip(cmd: seq<uint8>)
    ensures ParseFrame(Frame(cmd)) == Some(cmd)
  {
    var f := Frame(cmd);
    assert f[1..|f| - 1] == HexPairs(cmd + [Checksum(cmd)]);
    ParsePairsOfHexPairs(cmd + [Checksum(cmd)]);
    assert (cmd + [Checksum(cmd)])[..|cmd|] == cmd;
  }

  /** Only the frame built from some bytes reads back as those bytes. */
  lemma ParseFrameExact(f: string, cmd: seq<uint8>)
    requires ParseFrame(f) == Some(cmd)
    ensures Frame(cmd) == f
  {
    var bytes := ParsePairs(f[1..|f| - 1]).value;
    HexPairsOfParsePairs(f[1..|f| - 1], bytes);
    assert bytes == cmd + [Checksum(cmd)];
    assert f == "F" + f[1..|f| - 1] + "\r";
  }

  /** The digits of the example frame's last five bytes, checksum included. */
  lemma ExampleDigitsTail(bytes: seq<uint8>)
    requires bytes == [4, 0, 0x41, 1, 0x0F, 0, 0, 0x32, 0x87]
    ensures HexPairs(bytes[4..]) == "0F00003287"
  {
    assert HexPairs(bytes[8..]) == "87";
    assert HexPairs(bytes[7..]) == "32" + HexPairs(bytes[8..]);
    assert HexPairs(bytes[6..]) == "00" + HexPairs(bytes[7..]);
    assert HexPairs(bytes[5..]) == "00" + HexPairs(bytes[6..]);
    assert HexPairs(bytes[4..]) == "0F" + HexPairs(bytes[5..]);
  }

  /** The digits of the example frame's bytes, checksum included. */
  lemma ExampleDigits(bytes: seq<uint8>)
    requires bytes == [4, 0, 0x41, 1, 0x0F, 0, 0, 0x32, 0x87]
    ensures HexPairs(bytes) == "040041010F00003287"
  {
    ExampleDigitsTail(bytes);
    assert HexPairs(bytes[3..]) == "01" + HexPairs(bytes[4..]);
    assert HexPairs(bytes[2..]) == "41" + HexPairs(bytes[3..]);
    assert HexPairs(bytes[1..]) == "00" + HexPairs(bytes[2..]);
    assert HexPairs(bytes) == "04" + HexPairs(bytes[1..]);
  }

  /** Channel 0, window 'A', the maximum fade level set to 50. */
  lemma FrameExample()
    ensures Frame(RequestBytes(0, WindowA as uint8, WindowsMaxFadeLevel, 50)) == "F040041010F00003287\r"
  {
    var cmd := RequestBytes(0, WindowA as uint8, WindowsMaxFadeLevel, 50);
    assert cmd == [4, 0, 0x41, 1, 0x0F, 0, 0, 0x32];
    SumPrefixes(cmd, 0x04, 0x04, 0x45, 0x46, 0x55, 0x55, 0x55, 0x87);
    ExampleDigits(cmd + [0x87]);
  }

  // ---------------------------------------------------------------------
  // The acknowledgement.
  // ---------------------------------------------------------------------

  /**
   * A command succeeded when at least 20 characters came back within the
   * wait and the first two are 'F' and '4'; the other eighteen, a repeat
   * of the request, are not looked at.
   */
  predicate AckAccepted(reply: seq<char>): (accepted: bool)
    ensures |reply| < AckLength ==> !accepted
    ensures accepted ==> reply[..2] == "F4"
  {
    |reply| >= AckLength && reply[0] == 'F' && reply[1] == '4'
  }

  /**
   * The slots of `ack` the reply loop as written stores into when
   * `received` characters arrive before it stops: one per character, with
   * no bound.
   */
  function AckSlotsAsWritten(received: nat): (slots: seq<int>)
    ensures |slots| == received
    ensures forall k :: 0 <= k < received ==> slots[k] == k
  {
    seq(received, k => k)
  }

  /**
   * The stores of the reply loop as written: the i-th character that
   * arrives goes to slot i of `ack`, whatever i has reached.
   */
  method AckStoresAsWritten(reply: seq<char>) returns (slots: seq<int>)
    ensures slots == AckSlotsAsWritten(|reply|)
  {
    slots := [];
    var i := 0;
    while i < |reply|
      invariant 0 <= i <= |reply|
      invariant slots == AckSlotsAsWritten(i)
    {
      slots := slots + [i];
      i := i + 1;
    }
  }

  /**
   * A 21st character within the 30 ms clear period is stored outside the
   * slots 0 to 19 of `ack`.
   */
  lemma AckOverflowExample()
    ensures |AckSlotsAsWritten(AckLength + 1)| == AckLength + 1
    ensures !(0 <= AckSlotsAsWritten(AckLength + 1)[AckLength] < AckLength)
  {
  }

  /**
   * The reply loop, given the characters that arrive before it stops,
   * with the store into `ack` kept within its 20 slots.
   */
  method ReceiveAck(reply: seq<char>) returns (success: bool)
    ensures success == AckAccepted(reply)
  {
    var ack := new char[AckLength];
    var ackReceived := false;
    success := false;
    var i := 0;
    while i < |reply|
      invariant 0 <= i <= |reply|
      invariant forall k :: 0 <= k < i && k < AckLength ==> ack[k] == reply[k]
      invariant ackReceived == (i >= AckLength)
      invariant success == (i >= AckLength && reply[0] == 'F' && reply[1] == '4')
    {
      if i < AckLength {
        ack[i] := reply[i];
      }
      i := i + 1;
      if i >= AckLength {
        ackReceived := true;
        if ack[0] == 'F' && ack[1] == '4' {
          success := true;
        }
      }
    }
  }

  // ---------------------------------------------------------------------
  // The link.
  // ---------------------------------------------------------------------

  datatype LinkCommand = LinkCommand(channel: uint8, window: uint8, func: int, payload: int)
  {
    function Encoded(): string { Frame(RequestBytes(channel, window, func, payload)) }
  }

  /** The frames of some commands, back to back. */
  function Frames(cmds: seq<LinkCommand>): string
  {
    if |cmds| == 0 then "" else Frames(cmds[..|cmds| - 1]) + cmds[|cmds| - 1].Encoded()
  }

  lemma FramesSnoc(cmds: seq<LinkCommand>, n: int)
    requires 0 <= n < |cmds|
    ensures Frames(cmds[..n + 1]) == Frames(cmds[..n]) + cmds[n].Encoded()
  {
    assert cmds[..n + 1][..n] == cmds[..n];
  }

  /** What happens on the link, in order. */
  datatype LinkEvent =
    | WriteSignalHigh
    | Discarded(chars: seq<char>)
    | Transmitted(frame: string)
    | WriteSignalLow
    /** The error signal raised, its 0.25 s clear re-armed. */
    | ErrorSignalHigh

  /**
   * How many commands of a chain of `total` go out when each waits for the
   * previous one's acknowledgement: all of them, or up to and including
   * the first one refused. `replies[k]` is what the k-th command would
   * get back.
   */
  function ChainLength(replies: seq<seq<char>>, total: nat): (n: nat)
    requires total <= |replies|
    ensures n <= total && (total > 0 ==> n >= 1)
    ensures forall k :: 0 <= k < n - 1 ==> AckAccepted(replies[k])
    ensures n < total ==> !AckAccepted(replies[n - 1])
  {
    ChainLengthFrom(replies, total, 0)
  }

  /** The chain length when the first `from` commands were acknowledged. */
  function ChainLengthFrom(replies: seq<seq<char>>, total: nat, from: nat): (n: nat)
    requires from <= total <= |replies|
    requires forall k :: 0 <= k < from ==> AckAccepted(replies[k])
    ensures from <= n <= total && (total > from ==> n > from)
    ensures forall k :: 0 <= k < n - 1 ==> AckAccepted(replies[k])
    ensures n < total ==> !AckAccepted(replies[n - 1])
    decreases total - from
  {
    if from == total then total
    else if !AckAccepted(replies[from]) then from + 1
    else ChainLengthFrom(replies, total, from + 1)
  }

  /** The first-refusal count is the only one with those properties. */
  lemma ChainLengthExact(replies: seq<seq<char>>, total: nat, n: nat)
    requires n <= total <= |replies| && (total > 0 ==> n >= 1)
    requires forall k :: 0 <= k < n - 1 ==> AckAccepted(replies[k])
    requires n < total ==> !AckAccepted(replies[n - 1])
    ensures ChainLength(replies, total) == n
  {
  }

  /** Where a chain stops: after its last command, or after the first refused one. */
  lemma ChainOutcome(replies: seq<seq<char>>, total: nat, n: nat, ok: bool)
    requires n <= total <= |replies| && !(n < total && ok)
    requires ok ==> forall k :: 0 <= k < n ==> AckAccepted(replies[k])
    requires !ok ==> 1 <= n && !AckAccepted(replies[n - 1]) && forall k :: 0 <= k < n - 1 ==> AckAccepted(replies[k])
    ensures ok <==> forall k :: 0 <= k < total ==> AckAccepted(replies[k])
    ensures ChainLength(replies, total) == n
  {
    ChainLengthExact(replies, total, n);
  }

  /** The six commands that turn HDCP off on the output and on inputs A and B. */
  const HDCPOffCommands: seq<LinkCommand> := [
    LinkCommand(0, WindowA as uint8, OutputsHDCPRequired, 0),
    LinkCommand(0, WindowA as uint8, OutputsHDCPStatus, 0),
    LinkCommand(0, WindowA as uint8, SourceHDCPAdvertize, 0),
    LinkCommand(0, WindowA as uint8, SourceHDCPAdvertize, 0),
    LinkCommand(0, WindowB as uint8, SourceHDCPStatus, 0),
    LinkCommand(0, WindowB as uint8, SourceHDCPStatus, 0)
  ]

  /** Fill the request buffer of a command. */
  method BuildRequest(channel: uint8, window: uint8, func: int, payload: int) returns (cmd: array<uint8>)
    ensures fresh(cmd) && cmd[..] == RequestBytes(channel, window, func, payload)
  {
    cmd := new uint8[RequestLength];
    cmd[0] := WriteRequest;
    cmd[1] := channel;
    cmd[2] := window;
    cmd[3] := Low8(func / 0x100);
    cmd[4] := Low8(func);
    cmd[5] := Low8(payload / 0x1_0000);
    cmd[6] := Low8(payload / 0x100);
    cmd[7] := Low8(payload);
  }

  class SerialLink {
    /** Whether the write and error signal outputs are connected. */
    const hasWriteSignal: bool
    const hasErrorSignal: bool
    /** Characters received and not yet read. */
    var unread: seq<char>
    /** Every character sent to the processor. */
    var sent: seq<char>
    var writeSignal: bool
    var errorSignal: bool
    ghost var events: seq<LinkEvent>

    constructor (hasWriteSignal: bool, hasErrorSignal: bool)
      ensures this.hasWriteSignal == hasWriteSignal && this.hasErrorSignal == hasErrorSignal
      ensures unread == [] && sent == [] && !writeSignal && !errorSignal && events == []
    {
      this.hasWriteSignal := hasWriteSignal;
      this.hasErrorSignal := hasErrorSignal;
      unread := [];
      sent := [];
      writeSignal := false;
      errorSignal := false;
      events := [];
    }

    /** Throw away whatever is waiting to be read. */
    method Drain() returns (discarded: seq<char>)
      modifies this`unread
      ensures discarded == old(unread) && unread == []
    {
      discarded := [];
      while |unread| > 0
        invariant discarded + unread == old(unread)
      {
        discarded := discarded + [unread[0]];
        unread := unread[1..];
      }
    }

    /** Discard unread input, then build the request and send its frame. */
    method WriteFrame(channel: uint8, window: uint8, func: int, payload: int)
      modifies this`unread, this`sent, this`events
      ensures unread == []
      ensures sent == old(sent) + Frame(RequestBytes(channel, window, func, payload))
      ensures events == old(events) + [Discarded(old(unread)), Transmitted(Frame(RequestBytes(channel, window, func, payload)))]
    {
      var discarded := Drain();
      events := events + [Discarded(discarded)];
      var cmd := BuildRequest(channel, window, func, payload);
      var checksum := ChecksumOf(cmd);
      var frame := "F" + HexPairs(cmd[..] + [checksum]) + "\r";
      sent := sent + frame;
      events := events + [Transmitted(frame)];
    }

    /**
     * Send one write command and wait for its acknowledgement. `reply` is
     * what arrives before the wait ends and `late` what arrives after, left
     * for the next command to discard. The write signal is high from
     * before the input is discarded until the wait is over; only a refused
     * command raises the error signal.
     */
    method Command(channel: uint8, window: uint8, func: int, payload: int, reply: seq<char>, late: seq<char>)
      returns (success: bool)
      modifies this`unread, this`sent, this`writeSignal, this`errorSignal, this`events
      ensures success == AckAccepted(reply)
      ensures sent == old(sent) + Frame(RequestBytes(channel, window, func, payload))
      ensures unread == late
      ensures events == old(events)
        + (if hasWriteSignal then [WriteSignalHigh] else [])
        + [Discarded(old(unread)), Transmitted(Frame(RequestBytes(channel, window, func, payload)))]
        + (if hasWriteSignal then [WriteSignalLow] else [])
        + (if !success && hasErrorSignal then [ErrorSignalHigh] else [])
      ensures writeSignal == (old(writeSignal) && !hasWriteSignal)
      ensures errorSignal == (if !success && hasErrorSignal then true else old(errorSignal))
    {
      if hasWriteSignal {
        writeSignal := true;
        events := events + [WriteSignalHigh];
      }
      WriteFrame(channel, window, func, payload);
      success := ReceiveAck(reply);
      unread := late;
      if hasWriteSignal {
        writeSignal := false;
        events := events + [WriteSignalLow];
      }
      if !success && hasErrorSignal {
        errorSignal := true;
        events := events + [ErrorSignalHigh];
      }
    }

    /** One command of a chain, with nothing arriving after its wait. */
    method Send(c: LinkCommand, reply: seq<char>) returns (success: bool)
      modifies this`unread, this`sent, this`writeSignal, this`errorSignal, this`events
      ensures success == AckAccepted(reply)
      ensures sent == old(sent) + c.Encoded()
    {
      success := Command(c.channel, c.window, c.func, c.payload, reply, []);
    }

    /** The next command of a chain, extending what went out. */
    method SendNext(cmds: seq<LinkCommand>, reply: seq<char>, n: int, ghost start: seq<char>) returns (success: bool)
      requires 0 <= n < |cmds| && sent == start + Frames(cmds[..n])
      modifies this`unread, this`sent, this`writeSignal, this`errorSignal, this`events
      ensures success == AckAccepted(reply)
      ensures sent == start + Frames(cmds[..n + 1])
    {
      success := Send(cmds[n], reply);
      FramesSnoc(cmds, n);
    }

    /** The 0.25 s timeout after a failed command. */
    method SignErrorOff()
      modifies this`errorSignal
      ensures !errorSignal
    {
      errorSignal := false;
    }

    /**
     * The chain `ok = command(...); ok = ok && command(...); ...`: each
     * command goes out only when every earlier one was acknowledged.
     */
    method CommandChain(cmds: seq<LinkCommand>, replies: seq<seq<char>>) returns (ok: bool)
      requires |replies| == |cmds|
      modifies this`unread, this`sent, this`writeSignal, this`errorSignal, this`events
      ensures ok <==> forall k :: 0 <= k < |cmds| ==> AckAccepted(replies[k])
      ensures sent == old(sent) + Frames(cmds[..ChainLength(replies, |cmds|)])
    {
      ok := true;
      var n := 0;
      ghost var start := sent;
      while n < |cmds| && ok
        invariant 0 <= n <= |cmds|
        invariant ok ==> forall k :: 0 <= k < n ==> AckAccepted(replies[k])
        invariant !ok ==> 1 <= n && !AckAccepted(replies[n - 1]) && forall k :: 0 <= k < n - 1 ==> AckAccepted(replies[k])
        invariant sent == start + Frames(cmds[..n])
      {
        ok := SendNext(cmds, replies[n], n, start);
        n := n + 1;
      }
      ChainOutcome(replies, |cmds|, n, ok);
    }

    /**
     * Turn HDCP off on the output and on both inputs. The commands go out
     * in order until one is refused; the result is true only when all six
     * were acknowledged.
     */
    method SetHDCPOff(replies: seq<seq<char>>) returns (ok: bool)
      requires |replies| == |HDCPOffCommands|
      modifies this`unread, this`sent, this`writeSignal, this`errorSignal, this`events
      ensures ok <==> forall k :: 0 <= k < |HDCPOffCommands| ==> AckAccepted(replies[k])
      ensures sent == old(sent) + Frames(HDCPOffCommands[..ChainLength(replies, |HDCPOffCommands|)])
    {
      ok := CommandChain(HDCPOffCommands, replies);
    }
  }
}
