/**
 * Open Sound Control messages as the mixer's OSC library builds and reads
 * them: a message of at most two address segments, at most two type tags
 * and one 4-byte argument per tag; a sender that lays a message out as one
 * datagram, and a receiver that decodes the datagram found in its 256-byte
 * buffer into its message container.
 *
 * Characters stand for the bytes of the C buffers. An argument is the four
 * bytes of the value it points to, in memory (little-endian) order.
 */
module Osc {
  import opened Wrappers

  const MaxAddress: nat := 2
  const MaxArg: nat := 2
  /** Characters an address row holds before its terminator (a row is 16 bytes). */
  const RowCapacity: nat := 15
  const ReceiveBufferSize: nat := 256
  const SendBufferSize: nat := 128
  const Nul: char := '\0'

  /** The four bytes of an argument, as they lie in memory, lowest address first. */
  datatype Word = Word(b0: char, b1: char, b2: char, b3: char)

  /** The byte a character holds. */
  function ByteOf(c: char): nat
  {
    (c as int) % 256
  }

  /** A 32-bit two's-complement value read from its bytes in memory order. */
  function Int32(w: Word): (v: int)
    ensures -0x8000_0000 <= v < 0x8000_0000
  {
    var u := ByteOf(w.b0) + 0x100 * ByteOf(w.b1) + 0x1_0000 * ByteOf(w.b2) + 0x100_0000 * ByteOf(w.b3);
    if u >= 0x8000_0000 then u - 0x1_0000_0000 else u
  }

  /** The bytes of a 32-bit value in memory order, least significant first. */
  function LittleEndian(v: int): (w: Word)
    requires -0x8000_0000 <= v < 0x8000_0000
    ensures ByteOf(w.b0) + 0x100 * ByteOf(w.b1) + 0x1_0000 * ByteOf(w.b2) + 0x100_0000 * ByteOf(w.b3)
      == if v < 0 then v + 0x1_0000_0000 else v
  {
    var u := if v < 0 then v + 0x1_0000_0000 else v;
    var u1 := u / 0x100;
    var u2 := u1 / 0x100;
    assert u == u % 0x100 + 0x100 * u1;
    assert u1 == u1 % 0x100 + 0x100 * u2;
    assert u2 == u2 % 0x100 + 0x100 * (u2 / 0x100);
    assert u2 / 0x100 < 0x100;
    Word((u % 0x100) as char, (u1 % 0x100) as char, (u2 % 0x100) as char, (u2 / 0x100) as char)
  }

  /** Reading back the bytes of a value gives the value. */
  lemma Int32OfLittleEndian(v: int)
    requires -0x8000_0000 <= v < 0x8000_0000
    ensures Int32(LittleEndian(v)) == v
  {
    var w := LittleEndian(v);
    var u := ByteOf(w.b0) + 0x100 * ByteOf(w.b1) + 0x1_0000 * ByteOf(w.b2) + 0x100_0000 * ByteOf(w.b3);
    assert u == if v < 0 then v + 0x1_0000_0000 else v;
  }

  /** The bytes of a word as they travel: highest address first. */
  function WireBytes(w: Word): (b: seq<char>)
    ensures |b| == 4
  {
    [w.b3, w.b2, w.b1, w.b0]
  }

  /** The word whose bytes travel at `at`: the first one read is its last. */
  function WordAt(buf: seq<char>, at: nat): (w: Word)
    requires at + 4 <= |buf|
  {
    Word(buf[at + 3], buf[at + 2], buf[at + 1], buf[at])
  }

  /** A word read back from where its wire bytes lie is that word. */
  lemma WordAtWireBytes(buf: seq<char>, at: nat, w: Word)
    requires at + 4 <= |buf| && buf[at..at + 4] == WireBytes(w)
    ensures WordAt(buf, at) == w
  {
    assert buf[at] == buf[at..at + 4][0] && buf[at + 1] == buf[at..at + 4][1];
    assert buf[at + 2] == buf[at..at + 4][2] && buf[at + 3] == buf[at..at + 4][3];
  }

  // ---------------------------------------------------------------------
  // The datagram a message becomes
  // ---------------------------------------------------------------------

  function Zeros(n: nat): (z: seq<char>)
    ensures |z| == n && forall k :: 0 <= k < n ==> z[k] == Nul
  {
    seq(n, _ => Nul)
  }

  /** The length of a block of `n` characters padded to the next multiple of four, with at least one NUL. */
  function PaddedLength(n: nat): (p: nat)
    ensures p % 4 == 0 && n < p <= n + 4
  {
    4 * (n / 4) + 4
  }

  /** The only multiple of four in (n, n + 4] is the padded length. */
  lemma PaddedLengthIs(n: nat, blocks: nat)
    requires n < 4 * blocks <= n + 4
    ensures 4 * blocks == PaddedLength(n)
  {
  }

  /** `s` followed by one to four NULs, up to the next multiple of four. */
  function Pad(s: seq<char>): (p: seq<char>)
    ensures |p| == PaddedLength(|s|) && p[..|s|] == s && p[|s|] == Nul
  {
    s + Zeros(4 - |s| % 4)
  }

  function Concat(strings: seq<string>): string
  {
    if |strings| == 0 then [] else Concat(strings[..|strings| - 1]) + strings[|strings| - 1]
  }

  /** The arguments on the wire: each one's bytes most significant first. */
  function ArgBytes(args: seq<Word>): (b: seq<char>)
    ensures |b| == 4 * |args|
  {
    if |args| == 0 then [] else ArgBytes(args[..|args| - 1]) + WireBytes(args[|args| - 1])
  }

  /**
   * A message as a datagram: the address segments run together and
   * padded, then ',' and the type tags padded, then the arguments. The
   * datagram is a whole number of 4-byte blocks.
   */
  function Encode(addresses: seq<string>, tags: seq<char>, args: seq<Word>): (packet: seq<char>)
    ensures |packet| % 4 == 0
    ensures |packet| == PaddedLength(|Concat(addresses)|) + PaddedLength(1 + |tags|) + 4 * |args|
  {
    Pad(Concat(addresses)) + Pad([','] + tags) + ArgBytes(args)
  }

  // ---------------------------------------------------------------------
  // What the receiver reads back
  // ---------------------------------------------------------------------

  /** The index of the first NUL at or after `from`, or |buf| when there is none. */
  function FirstNul(buf: seq<char>, from: nat): (i: nat)
    requires from <= |buf|
    ensures from <= i <= |buf|
    ensures forall k :: from <= k < i ==> buf[k] != Nul
    ensures i < |buf| ==> buf[i] == Nul
    decreases |buf| - from
  {
    if from == |buf| || buf[from] == Nul then from else FirstNul(buf, from + 1)
  }

  lemma FirstNulAt(buf: seq<char>, from: nat, i: nat)
    requires from <= i < |buf| && buf[i] == Nul
    requires forall k :: from <= k < i ==> buf[k] != Nul
    ensures FirstNul(buf, from) == i
  {
  }

  /** Up to the first NUL, a character is NUL exactly at that index. */
  lemma AtFirstNul(buf: seq<char>, from: nat, i: nat)
    requires from <= |buf| && from <= i <= FirstNul(buf, from) < |buf|
    ensures buf[i] == Nul <==> i == FirstNul(buf, from)
  {
  }

  /** A NUL-free block padded and placed after `pre` ends where its padding starts. */
  lemma PaddedBlockEnd(pre: seq<char>, s: seq<char>, post: seq<char>)
    requires Nul !in s
    ensures (pre + Pad(s) + post)[|pre|..|pre| + |s|] == s
    ensures FirstNul(pre + Pad(s) + post, |pre|) == |pre| + |s|
  {
    var buf := pre + Pad(s) + post;
    assert forall k :: |pre| <= k < |pre| + |s| ==> buf[k] == s[k - |pre|];
    assert buf[|pre| + |s|] == Pad(s)[|s|];
    FirstNulAt(buf, |pre|, |pre| + |s|);
    assert buf[|pre|..|pre| + |s|] == s;
  }

  /** The same, for the block at the start of the buffer. */
  lemma PaddedFirstBlock(s: seq<char>, post: seq<char>)
    requires Nul !in s
    ensures (Pad(s) + post)[..|s|] == s
    ensures FirstNul(Pad(s) + post, 0) == |s|
  {
    PaddedBlockEnd([], s, post);
    assert [] + Pad(s) + post == Pad(s) + post;
  }

  /**
   * An address text split into segments: every '/' after the first
   * character starts a new segment, and no '/' is kept.
   */
  function Segments(s: seq<char>): (segments: seq<string>)
    ensures |segments| >= 1
  {
    if |s| == 0 then [[]]
    else
      var init := Segments(s[..|s| - 1]);
      var c := s[|s| - 1];
      if c == '/' then (if |s| == 1 then init else init + [[]])
      else init[..|init| - 1] + [init[|init| - 1] + [c]]
  }

  /** One more character: a '/' after the first starts a segment, any other extends the last one. */
  lemma SegmentsSnoc(seen: seq<char>, c: char)
    ensures var segs := Segments(seen);
      Segments(seen + [c])
        == if c == '/' then (if |seen| == 0 then segs else segs + [[]])
           else segs[..|segs| - 1] + [segs[|segs| - 1] + [c]]
  {
    assert (seen + [c])[..|seen|] == seen;
  }

  /** Characters other than '/' extend the last segment. */
  lemma {:induction false} SegmentsExtend(s: seq<char>, u: seq<char>)
    requires |s| >= 1 && '/' !in u
    ensures Segments(s + u) == Segments(s)[..|Segments(s)| - 1] + [Segments(s)[|Segments(s)| - 1] + u]
    decreases |u|
  {
    var segs := Segments(s);
    var n := |segs| - 1;
    if |u| == 0 {
      assert s + u == s;
      assert segs[n] + u == segs[n];
      assert segs[..n] + [segs[n]] == segs;
    }
    else {
      var v := u[..|u| - 1];
      var c := u[|u| - 1];
      SegmentsExtend(s, v);
      assert (s + u)[..|s + u| - 1] == s + v;
      var init := Segments(s + v);
      assert init == segs[..n] + [segs[n] + v];
      assert init[..|init| - 1] == segs[..n];
      assert (segs[n] + v) + [c] == segs[n] + u;
    }
  }

  lemma SegmentsSplit(s: seq<char>)
    requires |s| >= 1
    ensures Segments(s + ['/']) == Segments(s) + [[]]
  {
    assert (s + ['/'])[..|s|] == s;
  }

  /** The address segments the receiver can hold: two rows of RowCapacity characters. */
  predicate Fits(segments: seq<string>)
  {
    |segments| <= MaxAddress && forall k :: 0 <= k < |segments| ==> |segments[k]| <= RowCapacity
  }

  /** The characters of a type-tag block that are not ','. */
  function NonCommas(s: seq<char>): (r: seq<char>)
    ensures |r| <= |s|
  {
    if |s| == 0 then []
    else NonCommas(s[..|s| - 1]) + (if s[|s| - 1] == ',' then [] else [s[|s| - 1]])
  }

  lemma {:induction false} NonCommasPlain(s: seq<char>)
    requires ',' !in s
    ensures NonCommas(s) == s
  {
    if |s| > 0 {
      NonCommasPlain(s[..|s| - 1]);
      assert s[..|s| - 1] + [s[|s| - 1]] == s;
    }
  }

  /** A leading ',' is skipped. */
  lemma {:induction false} NonCommasAfterComma(s: seq<char>)
    ensures NonCommas([','] + s) == NonCommas(s)
  {
    if |s| > 0 {
      NonCommasAfterComma(s[..|s| - 1]);
      assert ([','] + s)[..|s|] == [','] + s[..|s| - 1];
    }
    else {
      assert [','] + s == [','];
    }
  }

  /** The type tags the receiver keeps: the first MaxArg that are not ','. */
  function TagsOf(block: seq<char>): (tags: seq<char>)
    ensures |tags| <= MaxArg && |tags| <= |NonCommas(block)|
  {
    var t := NonCommas(block);
    if |t| <= MaxArg then t else t[..MaxArg]
  }

  /** The tags kept are the first ones, and all of them when fewer than MaxArg are kept. */
  lemma TagsOfFirst(block: seq<char>)
    ensures TagsOf(block) == NonCommas(block)[..|TagsOf(block)|]
    ensures |TagsOf(block)| < MaxArg ==> TagsOf(block) == NonCommas(block)
  {
  }

  /** One more character of the type-tag block: a ',' is skipped, and a tag is kept while fewer than MaxArg are. */
  lemma TagsSnoc(seen: seq<char>, c: char)
    ensures |NonCommas(seen + [c])| == |NonCommas(seen)| + (if c == ',' then 0 else 1)
    ensures TagsOf(seen + [c])
         == if c != ',' && |NonCommas(seen)| < MaxArg then TagsOf(seen) + [c] else TagsOf(seen)
  {
    assert (seen + [c])[..|seen|] == seen;
  }

  /**
   * One character of the address at `messagePos`: a '/' after the first
   * starts a new row, any other character goes to the end of the last row.
   */
  method KeepAddressChar(c: char, rows: seq<string>, messagePos: nat, ghost seen: seq<char>) returns (newRows: seq<string>)
    requires messagePos == |seen| && rows == Segments(seen)
    ensures newRows == Segments(seen + [c])
  {
    SegmentsSnoc(seen, c);
    newRows := rows;
    if c == '/' && messagePos > 0 {
      newRows := rows + [[]];
    }
    if c != '/' {
      newRows := rows[..|rows| - 1] + [rows[|rows| - 1] + [c]];
    }
  }

  /** One character of the type-tag block: a tag other than ',' is kept while fewer than MaxArg have been seen. */
  method KeepTag(c: char, tags: seq<char>, typeTagPos: nat, ghost seen: seq<char>) returns (newTags: seq<char>, newPos: nat)
    requires typeTagPos == |NonCommas(seen)| && tags == TagsOf(seen)
    ensures newPos == |NonCommas(seen + [c])| && newTags == TagsOf(seen + [c])
  {
    TagsSnoc(seen, c);
    newTags, newPos := tags, typeTagPos;
    if c != ',' {
      if typeTagPos < MaxArg {
        newTags := tags + [c];
      }
      newPos := typeTagPos + 1;
    }
  }

  /** A prefix grows by the element after it. */
  lemma PrefixSnoc(buf: seq<char>, to: nat)
    requires to < |buf|
    ensures buf[..to + 1] == buf[..to] + [buf[to]]
  {
  }

  /** A slice grows by the element after it. */
  lemma SliceSnoc(buf: seq<char>, from: nat, to: nat)
    requires from <= to < |buf|
    ensures buf[from..to + 1] == buf[from..to] + [buf[to]]
  {
  }

  /** `n` arguments read from `start`, each one's wire bytes turned back into memory order. */
  function ArgsAt(buf: seq<char>, start: nat, n: nat): (args: seq<Word>)
    requires start + 4 * n <= |buf|
    ensures |args| == n
  {
    if n == 0 then [] else ArgsAt(buf, start, n - 1) + [WordAt(buf, start + 4 * (n - 1))]
  }

  /** A slice that holds two sequences one after the other holds each at its place. */
  lemma SliceHalves(buf: seq<char>, from: nat, x: seq<char>, y: seq<char>)
    requires from + |x| + |y| <= |buf| && buf[from..from + |x| + |y|] == x + y
    ensures buf[from..from + |x|] == x && buf[from + |x|..from + |x| + |y|] == y
  {
    assert buf[from..from + |x|] == (x + y)[..|x|];
    assert buf[from + |x|..from + |x| + |y|] == (x + y)[|x|..];
  }

  lemma SliceMiddle(x: seq<char>, y: seq<char>, z: seq<char>)
    ensures (x + (y + z))[|x|..|x| + |y|] == y
  {
    assert (x + (y + z))[|x|..] == y + z;
  }

  lemma {:induction false} ArgsAtArgBytes(buf: seq<char>, start: nat, args: seq<Word>)
    requires start + 4 * |args| <= |buf|
    requires buf[start..start + 4 * |args|] == ArgBytes(args)
    ensures ArgsAt(buf, start, |args|) == args
  {
    if |args| > 0 {
      var n := |args| - 1;
      var init := args[..n];
      assert ArgBytes(args) == ArgBytes(init) + WireBytes(args[n]);
      SliceHalves(buf, start, ArgBytes(init), WireBytes(args[n]));
      assert ArgsAt(buf, start, n) == init by {
        ArgsAtArgBytes(buf, start, init);
      }
      assert WordAt(buf, start + 4 * n) == args[n] by {
        WordAtWireBytes(buf, start + 4 * n, args[n]);
      }
      assert init + [args[n]] == args;
    }
  }

  datatype Decoded = Decoded(segments: seq<string>, tags: seq<char>, args: seq<Word>)

  /**
   * What the receiver decodes after the address, when the type-tag block
   * starts at `tagStart`: none when the tags or the arguments would run
   * past the end of the buffer.
   */
  function DecodeBody(buf: seq<char>, segments: seq<string>, tagStart: nat): (d: Option<Decoded>)
    ensures d.Some? ==> d.value.segments == segments && |d.value.tags| <= MaxArg
    ensures d.Some? ==> |d.value.args| == |d.value.tags|
  {
    if tagStart >= |buf| then None
    else
      var tagEnd := FirstNul(buf, tagStart);
      var tags := TagsOf(buf[tagStart..tagEnd]);
      var argStart := tagStart + PaddedLength(tagEnd - tagStart);
      if tagEnd == |buf| || argStart + 4 * |tags| > |buf| then None
      else Some(Decoded(segments, tags, ArgsAt(buf, argStart, |tags|)))
  }

  /**
   * The message in a receive buffer: the address up to the first NUL split
   * at '/', the type-tag block from the next 4-byte boundary, and the
   * arguments from the boundary after the tags. None for a buffer the
   * receiver cannot hold: no terminator, a third segment, a segment longer
   * than a row, or tags or arguments past the end of the buffer.
   */
  function Decode(buf: seq<char>): (d: Option<Decoded>)
    ensures d.Some? ==> 1 <= |d.value.segments| <= MaxAddress && Fits(d.value.segments)
    ensures d.Some? ==> |d.value.tags| <= MaxArg && |d.value.args| == |d.value.tags|
  {
    var nul := FirstNul(buf, 0);
    var segments := Segments(buf[..nul]);
    if nul == |buf| || !Fits(segments) then None
    else DecodeBody(buf, segments, PaddedLength(nul))
  }

  /** A decodable buffer holds the address and the type-tag block, each ended by a NUL. */
  lemma DecodeBlocks(buf: seq<char>)
    requires Decode(buf).Some?
    ensures FirstNul(buf, 0) < |buf| && Fits(Segments(buf[..FirstNul(buf, 0)]))
    ensures PaddedLength(FirstNul(buf, 0)) < |buf|
    ensures FirstNul(buf, PaddedLength(FirstNul(buf, 0))) < |buf|
  {
  }

  /** What a decodable buffer decodes to, given where its blocks start. */
  lemma DecodeFrom(buf: seq<char>, tagStart: nat, tagEnd: nat, argStart: nat)
    requires Decode(buf).Some? && tagStart == PaddedLength(FirstNul(buf, 0)) && tagStart < |buf|
    requires tagEnd == FirstNul(buf, tagStart) && argStart == tagStart + PaddedLength(tagEnd - tagStart)
    ensures argStart + 4 * |TagsOf(buf[tagStart..tagEnd])| <= |buf|
    ensures Decode(buf) == Some(Decoded(Segments(buf[..FirstNul(buf, 0)]), TagsOf(buf[tagStart..tagEnd]),
                                        ArgsAt(buf, argStart, |TagsOf(buf[tagStart..tagEnd])|)))
  {
    assert Decode(buf) == DecodeBody(buf, Segments(buf[..FirstNul(buf, 0)]), tagStart);
  }

  /** An address segment as a sender writes it: '/', then up to a row of characters, none of them '/' or NUL. */
  predicate Addressable(segment: string)
  {
    1 <= |segment| <= RowCapacity + 1 && segment[0] == '/' && '/' !in segment[1..] && Nul !in segment
  }

  /** A segment without its leading character. */
  function Unslashed(segment: string): (r: string)
    ensures |segment| >= 1 ==> |r| == |segment| - 1
  {
    if |segment| == 0 then segment else segment[1..]
  }

  /** The segments without their leading character. */
  function Stripped(segments: seq<string>): (r: seq<string>)
    ensures |r| == |segments|
  {
    seq(|segments|, k requires 0 <= k < |segments| => Unslashed(segments[k]))
  }

  lemma OneSegment(a: string)
    requires Addressable(a)
    ensures Segments(a) == [a[1..]]
  {
    assert ['/'][..0] == [];
    assert Segments(['/']) == [[]];
    assert ['/'] + a[1..] == a;
    SegmentsExtend(['/'], a[1..]);
    assert [] + a[1..] == a[1..];
  }

  lemma TwoSegments(a: string, b: string)
    requires Addressable(a) && Addressable(b)
    ensures Segments(a + b) == [a[1..], b[1..]]
  {
    OneSegmentThenSlash(a);
    SlashJoin(a, b);
    FillSecondSegment(a + ['/'], a[1..], b[1..]);
  }

  lemma SlashJoin(a: seq<char>, b: seq<char>)
    requires |b| >= 1 && b[0] == '/'
    ensures a + b == (a + ['/']) + b[1..]
  {
    assert b == ['/'] + b[1..];
  }

  lemma OneSegmentThenSlash(a: string)
    requires Addressable(a)
    ensures Segments(a + ['/']) == [a[1..], []]
  {
    OneSegment(a);
    SegmentsSplit(a);
  }

  lemma FillSecondSegment(s: seq<char>, first: string, u: seq<char>)
    requires |s| >= 1 && Segments(s) == [first, []] && '/' !in u
    ensures Segments(s + u) == [first, u]
  {
    SegmentsExtend(s, u);
    assert [first, []][..1] == [first];
    assert [] + u == u;
  }

  /** A one-segment address reads back as that segment without its '/'. */
  lemma AddressOfOne(a: string)
    requires Addressable(a)
    ensures Segments(Concat([a])) == Stripped([a])
    ensures Nul !in Concat([a]) && Fits(Stripped([a]))
  {
    assert Concat([a]) == a by {
      var none: seq<string> := [];
      assert [a][..0] == none;
    }
    assert Stripped([a]) == [a[1..]];
    OneSegment(a);
  }

  /** A two-segment address reads back as both segments without their '/'. */
  lemma AddressOfTwo(a: string, b: string)
    requires Addressable(a) && Addressable(b)
    ensures Segments(Concat([a, b])) == Stripped([a, b])
    ensures Nul !in Concat([a, b]) && Fits(Stripped([a, b]))
  {
    assert Concat([a, b]) == a + b by {
      assert [a, b][..1] == [a];
      AddressOfOne(a);
    }
    assert Stripped([a, b]) == [a[1..], b[1..]];
    TwoSegments(a, b);
  }

  lemma SegmentsOfAddress(segments: seq<string>)
    requires 1 <= |segments| <= MaxAddress
    requires forall k :: 0 <= k < |segments| ==> Addressable(segments[k])
    ensures Segments(Concat(segments)) == Stripped(segments)
    ensures Nul !in Concat(segments) && Fits(Stripped(segments))
  {
    if |segments| == 2 {
      assert segments == [segments[0], segments[1]];
      AddressOfTwo(segments[0], segments[1]);
    }
    else {
      assert segments == [segments[0]];
      AddressOfOne(segments[0]);
    }
  }

  /** The address a sender writes decodes to its segments, and the type tags start right after its padding. */
  lemma DecodeAddress(segments: seq<string>, after: seq<char>)
    requires 1 <= |segments| <= MaxAddress
    requires forall k :: 0 <= k < |segments| ==> Addressable(segments[k])
    ensures Decode(Pad(Concat(segments)) + after)
         == DecodeBody(Pad(Concat(segments)) + after, Stripped(segments), |Pad(Concat(segments))|)
  {
    var text := Concat(segments);
    var buf := Pad(text) + after;
    assert Nul !in text && Segments(text) == Stripped(segments) && Fits(Stripped(segments)) by {
      SegmentsOfAddress(segments);
    }
    PaddedFirstBlock(text, after);
  }

  /** Arguments written after `x` are read back from the end of `x`. */
  lemma ArgsAfter(x: seq<char>, args: seq<Word>, rest: seq<char>)
    ensures |x| + 4 * |args| <= |x + (ArgBytes(args) + rest)|
    ensures ArgsAt(x + (ArgBytes(args) + rest), |x|, |args|) == args
  {
    SliceMiddle(x, ArgBytes(args), rest);
    ArgsAtArgBytes(x + (ArgBytes(args) + rest), |x|, args);
  }

  /** The body decodes to `tags` and `args` when the tag block ends in the buffer and holds them. */
  lemma DecodeBodyAt(buf: seq<char>, segments: seq<string>, tagStart: nat, tagEnd: nat, argStart: nat,
                      tags: seq<char>, args: seq<Word>)
    requires tagStart <= tagEnd < |buf| && FirstNul(buf, tagStart) == tagEnd
    requires TagsOf(buf[tagStart..tagEnd]) == tags
    requires argStart == tagStart + PaddedLength(tagEnd - tagStart) && argStart + 4 * |tags| <= |buf|
    requires ArgsAt(buf, argStart, |tags|) == args
    ensures DecodeBody(buf, segments, tagStart) == Some(Decoded(segments, tags, args))
  {
  }

  /** The type-tag block a sender writes after `head` ends at its first NUL and holds exactly its tags. */
  lemma TagBlock(head: seq<char>, tags: seq<char>, tail: seq<char>)
    requires |tags| <= MaxArg && Nul !in tags && ',' !in tags
    ensures FirstNul(head + Pad([','] + tags) + tail, |head|) == |head| + 1 + |tags|
    ensures TagsOf((head + Pad([','] + tags) + tail)[|head|..|head| + 1 + |tags|]) == tags
  {
    var block := [','] + tags;
    var buf := head + Pad(block) + tail;
    assert |block| == 1 + |tags|;
    assert buf[|head|..|head| + 1 + |tags|] == block && FirstNul(buf, |head|) == |head| + 1 + |tags| by {
      PaddedBlockEnd(head, block, tail);
    }
    assert TagsOf(block) == tags by {
      NonCommasAfterComma(tags);
      NonCommasPlain(tags);
    }
  }

  /** Type tags and arguments a sender writes after `head` decode to themselves. */
  lemma DecodeTagsAndArgs(head: seq<char>, segments: seq<string>, tags: seq<char>, args: seq<Word>, rest: seq<char>)
    requires |tags| <= MaxArg && Nul !in tags && ',' !in tags && |args| == |tags|
    ensures DecodeBody(head + Pad([','] + tags) + (ArgBytes(args) + rest), segments, |head|)
         == Some(Decoded(segments, tags, args))
  {
    var x := head + Pad([','] + tags);
    var tail := ArgBytes(args) + rest;
    var buf := x + tail;
    var tagEnd := |head| + 1 + |tags|;
    assert FirstNul(buf, |head|) == tagEnd && TagsOf(buf[|head|..tagEnd]) == tags by {
      TagBlock(head, tags, tail);
    }
    assert |x| + 4 * |tags| <= |buf| && ArgsAt(buf, |x|, |tags|) == args by {
      ArgsAfter(x, args, rest);
    }
    assert |x| == |head| + PaddedLength(tagEnd - |head|) by {
      assert tagEnd - |head| == |[','] + tags|;
    }
    DecodeBodyAt(buf, segments, |head|, tagEnd, |x|, tags, args);
  }

  /** The datagram and what follows it, grouped by block. */
  lemma Regroup(a: seq<char>, b: seq<char>, c: seq<char>, d: seq<char>)
    ensures a + b + c + d == a + (b + (c + d)) && a + (b + (c + d)) == a + b + (c + d)
  {
  }

  /**
   * What a sender encodes, the receiver decodes: the segments without
   * their '/', the type tags and the arguments, whatever follows the
   * datagram in the buffer.
   */
  lemma RoundTrip(segments: seq<string>, tags: seq<char>, args: seq<Word>, rest: seq<char>)
    requires 1 <= |segments| <= MaxAddress
    requires forall k :: 0 <= k < |segments| ==> Addressable(segments[k])
    requires |tags| <= MaxArg && Nul !in tags && ',' !in tags && |args| == |tags|
    ensures Decode(Encode(segments, tags, args) + rest) == Some(Decoded(Stripped(segments), tags, args))
  {
    var head := Pad(Concat(segments));
    var after := Pad([','] + tags) + (ArgBytes(args) + rest);
    Regroup(head, Pad([','] + tags), ArgBytes(args), rest);
    DecodeAddress(segments, after);
    DecodeTagsAndArgs(head, Stripped(segments), tags, args, rest);
  }

  // ---------------------------------------------------------------------
  // The receiver's alignment scan as written
  // ---------------------------------------------------------------------

  datatype Alignment = Alignment(count: nat, pos: nat)

  /**
   * The source's scan over the address and its terminator: a count of
   * characters in the current 4-byte block and the start of the block
   * after the address. Every character is counted, but the end of a block
   * is only checked on a character that is not '/'.
   */
  function ScanAsWritten(s: seq<char>): (a: Alignment)
    ensures a.pos >= 4 && a.pos % 4 == 0
  {
    if |s| == 0 then Alignment(0, 4)
    else
      var a := ScanAsWritten(s[..|s| - 1]);
      if s[|s| - 1] != '/' && a.count > 3 then Alignment(1, a.pos + 4) else Alignment(a.count + 1, a.pos)
  }

  /** With no '/' at the start of a block, the scan ends at the block after the terminator. */
  lemma {:induction false} ScanAsWrittenAligned(s: seq<char>)
    requires |s| >= 1
    requires forall p :: 0 < p < |s| && p % 4 == 0 ==> s[p] != '/'
    ensures ScanAsWritten(s) == Alignment((|s| - 1) % 4 + 1, 4 + 4 * ((|s| - 1) / 4))
  {
    if |s| > 1 {
      var t := s[..|s| - 1];
      ScanAsWrittenAligned(t);
    }
  }

  /** The receiver as written: the same decoding, with the tags where the as-written scan puts them. */
  function DecodeAsWritten(buf: seq<char>): (d: Option<Decoded>)
    ensures d.Some? ==> 1 <= |d.value.segments| <= MaxAddress && Fits(d.value.segments)
  {
    var nul := FirstNul(buf, 0);
    var segments := Segments(buf[..nul]);
    if nul == |buf| || !Fits(segments) then None
    else DecodeBody(buf, segments, ScanAsWritten(buf[..nul + 1]).pos)
  }

  /** Unless a '/' starts a 4-byte block of the address, the receiver as written decodes correctly. */
  lemma DecodeAsWrittenAgrees(buf: seq<char>)
    requires FirstNul(buf, 0) < |buf|
    requires forall p :: 0 < p < FirstNul(buf, 0) && p % 4 == 0 ==> buf[p] != '/'
    ensures DecodeAsWritten(buf) == Decode(buf)
  {
    var nul := FirstNul(buf, 0);
    assert ScanAsWritten(buf[..nul + 1]).pos == PaddedLength(nul) by {
      ScanAsWrittenTerminated(buf, nul);
    }
  }

  /** The as-written scan over an address with no '/' at a block start, and its terminator. */
  lemma ScanAsWrittenTerminated(buf: seq<char>, nul: nat)
    requires nul < |buf| && buf[nul] == Nul
    requires forall p :: 0 < p < nul && p % 4 == 0 ==> buf[p] != '/'
    ensures ScanAsWritten(buf[..nul + 1]).pos == PaddedLength(nul)
  {
    var s := buf[..nul + 1];
    forall p | 0 < p < |s| && p % 4 == 0
      ensures s[p] != '/'
    {
      assert s[p] == buf[p];
    }
    ScanAsWrittenAligned(s);
  }

  /** The as-written scan over "/abc/def" and its terminator ends at 8, not 12. */
  lemma ScanSlashAtFour()
    ensures ScanAsWritten("/abc/def\0").pos == 8
  {
    var s := "/abc/def\0";
    assert ScanAsWritten(s[..1]) == Alignment(1, 4);
    assert ScanAsWritten(s[..2]) == Alignment(2, 4) by { assert s[..2][..1] == s[..1]; }
    assert ScanAsWritten(s[..3]) == Alignment(3, 4) by { assert s[..3][..2] == s[..2]; }
    assert ScanAsWritten(s[..4]) == Alignment(4, 4) by { assert s[..4][..3] == s[..3]; }
    assert ScanAsWritten(s[..5]) == Alignment(5, 4) by { assert s[..5][..4] == s[..4]; }
    assert ScanAsWritten(s[..6]) == Alignment(1, 8) by { assert s[..6][..5] == s[..5]; }
    assert ScanAsWritten(s[..7]) == Alignment(2, 8) by { assert s[..7][..6] == s[..6]; }
    assert ScanAsWritten(s[..8]) == Alignment(3, 8) by { assert s[..8][..7] == s[..7]; }
    assert s[..8] == s[..|s| - 1];
  }

  /**
   * "/abc/def" puts its '/' at offset 4: the scan as written skips the
   * check there and ends one block early, on the address's own
   * terminator, so the receiver reads no type tags and drops the argument.
   */
  lemma SlashAtBlockStartMisaligns(w: Word)
    ensures Decode(Encode(["/abc", "/def"], "i", [w])) == Some(Decoded(["abc", "def"], "i", [w]))
    ensures DecodeAsWritten(Encode(["/abc", "/def"], "i", [w])) == Some(Decoded(["abc", "def"], [], []))
  {
    var buf := Encode(["/abc", "/def"], "i", [w]);
    assert Decode(buf) == Some(Decoded(["abc", "def"], "i", [w])) by {
      RoundTrip(["/abc", "/def"], "i", [w], []);
      assert buf + [] == buf;
      SlashAtFourAddress();
    }
    assert buf[..12] == "/abc/def\0\0\0\0" by {
      SlashAtFourAddress();
      EncodedAddressBlock(Pad(Concat(["/abc", "/def"])), Pad([','] + "i") + ArgBytes([w]));
    }
    AsWrittenSlashAtFour(buf);
  }

  /** The address of the example and its segments. */
  lemma SlashAtFourAddress()
    ensures Concat(["/abc", "/def"]) == "/abc/def" && Stripped(["/abc", "/def"]) == ["abc", "def"]
  {
    assert ["/abc", "/def"][..1] == ["/abc"];
  }

  /** The padded address "/abc/def" is its own first 12 characters, whatever follows it. */
  lemma EncodedAddressBlock(head: seq<char>, tail: seq<char>)
    requires head == Pad("/abc/def")
    ensures (head + tail)[..12] == "/abc/def\0\0\0\0"
  {
    assert head == "/abc/def" + Zeros(4);
    assert Zeros(4) == "\0\0\0\0";
  }

  /** Any buffer that starts with "/abc/def" and its padding decodes, as written, to no tags. */
  lemma AsWrittenSlashAtFour(buf: seq<char>)
    requires |buf| >= 12 && buf[..12] == "/abc/def\0\0\0\0"
    ensures DecodeAsWritten(buf) == Some(Decoded(["abc", "def"], [], []))
  {
    FirstNulAt(buf, 0, 8);
    assert buf[..8] == "/abc" + "/def";
    TwoSegments("/abc", "/def");
    assert buf[..9] == "/abc/def\0";
    ScanSlashAtFour();
    FirstNulAt(buf, 8, 8);
    assert buf[8..8] == [];
  }

  // ---------------------------------------------------------------------
  // Messages
  // ---------------------------------------------------------------------

  /** Where an index lands after the source's clamp: an index past the last slot means the last slot. */
  function Slot(index: nat, capacity: nat): (i: nat)
    requires capacity >= 1 && index != capacity
    ensures i < capacity
    ensures index < capacity ==> i == index
    ensures index > capacity ==> i == capacity - 1
  {
    if index > capacity then capacity - 1 else index
  }

  /** How many type tags setArgs keeps for `n` types: all of them up to MaxArg, and one when there are more. */
  function ArgCount(n: nat): (count: nat)
    ensures count <= MaxArg
    ensures n <= MaxArg ==> count == n
    ensures n > MaxArg ==> count == MaxArg - 1
  {
    if n > MaxArg then MaxArg - 1 else n
  }

  /** Three types keep one tag, not two. */
  lemma ThreeTypesKeepOne()
    ensures ArgCount(3) == 1 && ArgCount(2) == 2
  {
  }

  /** The number of `types` that take a value from the argument list: 'i' and 'f'. */
  function Taken(types: seq<char>): (n: nat)
    ensures n <= |types|
  {
    if |types| == 0 then 0
    else Taken(types[..|types| - 1]) + (if types[|types| - 1] == 'i' || types[|types| - 1] == 'f' then 1 else 0)
  }

  /**
   * The arguments setArgs leaves for `types`: an 'i' or 'f' takes the next
   * value from the list, any other type keeps the argument already there.
   */
  function Assigned(types: seq<char>, values: seq<Word>, previous: seq<Word>): (args: seq<Word>)
    requires |types| <= |previous| && Taken(types) <= |values|
    ensures |args| == |types|
  {
    if |types| == 0 then []
    else
      var n := |types| - 1;
      Assigned(types[..n], values, previous)
        + [if types[n] == 'i' || types[n] == 'f' then values[Taken(types[..n])] else previous[n]]
  }

  /**
   * The loop of setArgs over the first `count` types: each type goes to
   * its slot, and an 'i' or 'f' takes the next value for its argument.
   */
  method AssignArgs(types: seq<char>, count: nat, values: seq<Word>, typeTag: seq<char>, arg: seq<Word>)
    returns (newTags: seq<char>, newArgs: seq<Word>)
    requires count <= |types| && count <= |typeTag| && count <= |arg| && Taken(types[..count]) <= |values|
    ensures newTags == types[..count] + typeTag[count..]
    ensures newArgs == Assigned(types[..count], values, arg) + arg[count..]
  {
    ghost var want := Assigned(types[..count], values, arg);
    newTags, newArgs := typeTag, arg;
    var i := 0;
    var next := 0;
    while i < count
      invariant 0 <= i <= count
      invariant next == Taken(types[..i])
      invariant |newTags| == |typeTag| && |newArgs| == |arg|
      invariant forall k :: 0 <= k < i ==> newTags[k] == types[k]
      invariant forall k :: 0 <= k < i ==> newArgs[k] == want[k]
      invariant forall k :: i <= k < |typeTag| ==> newTags[k] == typeTag[k]
      invariant forall k :: i <= k < |arg| ==> newArgs[k] == arg[k]
    {
      AssignedAt(types, count, values, arg, i);
      newTags := newTags[i := types[i]];
      if types[i] == 'i' || types[i] == 'f' {
        newArgs := newArgs[i := values[next]];
        next := next + 1;
      }
      i := i + 1;
    }
    Spliced(newTags, types[..count], typeTag, count);
    Spliced(newArgs, want, arg, count);
  }

  /**
   * The argument setArgs leaves at index `i`: the next value when the
   * type there takes one, the argument already there otherwise.
   */
  lemma {:induction false} AssignedAt(types: seq<char>, count: nat, values: seq<Word>, previous: seq<Word>, i: nat)
    requires i < count <= |types| && count <= |previous| && Taken(types[..count]) <= |values|
    ensures Taken(types[..i + 1]) == Taken(types[..i]) + (if types[i] == 'i' || types[i] == 'f' then 1 else 0)
    ensures Taken(types[..i + 1]) <= Taken(types[..count])
    ensures Assigned(types[..count], values, previous)[i]
         == if types[i] == 'i' || types[i] == 'f' then values[Taken(types[..i])] else previous[i]
  {
    var n := count - 1;
    assert types[..count][..n] == types[..n];
    if i < n {
      AssignedAt(types, n, values, previous, i);
    }
  }

  /** When every type takes a value, the arguments are the values in order. */
  lemma {:induction false} AssignedInOrder(types: seq<char>, values: seq<Word>, previous: seq<Word>)
    requires |types| <= |previous| && |types| <= |values|
    requires forall k :: 0 <= k < |types| ==> types[k] == 'i' || types[k] == 'f'
    ensures Taken(types) == |types|
    ensures Assigned(types, values, previous) == values[..|types|]
  {
    if |types| > 0 {
      var n := |types| - 1;
      AssignedInOrder(types[..n], values, previous);
      assert values[..n] + [values[n]] == values[..n + 1];
    }
  }

  class OscMessage {
    /** The address segments; None is a null pointer. */
    var address: seq<Option<string>>
    var addressNum: nat
    var typeTag: seq<char>
    var arg: seq<Word>
    var argNum: nat

    ghost predicate Valid()
      reads this
    {
      |address| == MaxAddress && |typeTag| == MaxArg && |arg| == MaxArg
      && addressNum <= MaxAddress && argNum <= MaxArg
    }

    /** The mixer's messages are globals, so they start zeroed: no address, no arguments. */
    constructor ()
      ensures Valid()
      ensures address == [None, None] && addressNum == 0
      ensures typeTag == [Nul, Nul] && arg == [Word(Nul, Nul, Nul, Nul), Word(Nul, Nul, Nul, Nul)] && argNum == 0
    {
      address := [None, None];
      addressNum := 0;
      typeTag := [Nul, Nul];
      arg := [Word(Nul, Nul, Nul, Nul), Word(Nul, Nul, Nul, Nul)];
      argNum := 0;
    }

    /** Index MaxAddress is let through by the clamp and read past the array, so it is excluded. */
    function GetAddress(index: nat): (a: Option<string>)
      requires Valid() && index != MaxAddress
      reads this
      ensures index < MaxAddress ==> a == address[index]
      ensures index > MaxAddress ==> a == address[MaxAddress - 1]
    {
      address[Slot(index, MaxAddress)]
    }

    function GetTopAddress(): (a: Option<string>)
      requires Valid()
      reads this
      ensures a == address[0]
    {
      GetAddress(0)
    }

    function GetSubAddress(): (a: Option<string>)
      requires Valid()
      reads this
      ensures a == address[1]
    {
      GetAddress(1)
    }

    function GetTypeTag(index: nat): (t: char)
      requires Valid() && index != MaxArg
      reads this
      ensures index < MaxArg ==> t == typeTag[index]
      ensures index > MaxArg ==> t == typeTag[MaxArg - 1]
    {
      typeTag[Slot(index, MaxArg)]
    }

    /**
     * An argument read as a 32-bit integer. The source clamps the index to
     * argNum, one past the last argument, so only indices below argNum are
     * allowed here.
     */
    function GetArgInt(index: nat): (v: int)
      requires Valid() && index < argNum
      reads this
      ensures -0x8000_0000 <= v < 0x8000_0000
      ensures forall x :: -0x8000_0000 <= x < 0x8000_0000 && arg[index] == LittleEndian(x) ==> v == x
    {
      var v := Int32(arg[index]);
      assert forall x :: -0x8000_0000 <= x < 0x8000_0000 && arg[index] == LittleEndian(x) ==> v == x by {
        forall x | -0x8000_0000 <= x < 0x8000_0000 && arg[index] == LittleEndian(x) {
          Int32OfLittleEndian(x);
        }
      }
      v
    }

    /** The top address alone: the sub-address becomes null. */
    method SetTopAddress(a: string)
      requires Valid()
      modifies this`address, this`addressNum
      ensures Valid() && addressNum == 1
      ensures GetTopAddress() == Some(a) && GetSubAddress() == None
    {
      address := address[0 := Some(a)][1 := None];
      addressNum := 1;
    }

    /** The sub-address; the count becomes 2 whether or not a top address was set. */
    method SetSubAddress(a: string)
      requires Valid()
      modifies this`address, this`addressNum
      ensures Valid() && addressNum == 2
      ensures GetSubAddress() == Some(a) && GetTopAddress() == old(GetTopAddress())
    {
      address := address[1 := Some(a)];
      addressNum := 2;
    }

    method SetAddress(top: string, sub: string)
      requires Valid()
      modifies this`address, this`addressNum
      ensures Valid() && addressNum == 2
      ensures GetTopAddress() == Some(top) && GetSubAddress() == Some(sub)
    {
      SetTopAddress(top);
      SetSubAddress(sub);
      addressNum := 2;
    }

    /** One segment by index, clamped as GetAddress clamps; the count becomes the slot plus one. */
    method SetAddressAt(index: nat, a: string)
      requires Valid() && index != MaxAddress
      modifies this`address, this`addressNum
      ensures Valid() && addressNum == Slot(index, MaxAddress) + 1
      ensures GetAddress(index) == Some(a)
      ensures address == old(address)[Slot(index, MaxAddress) := Some(a)]
    {
      var i := if index > MaxAddress then MaxAddress - 1 else index;
      address := address[i := Some(a)];
      addressNum := i + 1;
    }

    /**
     * The type tags and the values behind them: `types` is a C string and
     * `values` the variadic arguments in order, one for each 'i' or 'f'.
     */
    method SetArgs(types: string, values: seq<Word>)
      requires Valid() && Nul !in types
      requires Taken(types[..ArgCount(|types|)]) <= |values|
      modifies this`typeTag, this`arg, this`argNum
      ensures Valid() && argNum == ArgCount(|types|)
      ensures typeTag == types[..argNum] + old(typeTag)[argNum..]
      ensures arg == Assigned(types[..argNum], values, old(arg)) + old(arg)[argNum..]
    {
      argNum := |types|;
      if argNum > MaxArg {
        argNum := MaxArg - 1;
      }
      typeTag, arg := AssignArgs(types, argNum, values, typeTag, arg);
    }

    /** The address segments a sender writes, all of them set. */
    function Addresses(): (a: seq<string>)
      requires Valid() && forall i :: 0 <= i < addressNum ==> address[i].Some?
      reads this
      ensures |a| == addressNum && forall i :: 0 <= i < addressNum ==> a[i] == address[i].value
    {
      if addressNum == 0 then []
      else if addressNum == 1 then [address[0].value]
      else [address[0].value, address[1].value]
    }
  }

  /** A sequence that starts with `prefix` and agrees with `orig` after it is `prefix` followed by the rest of `orig`. */
  lemma Spliced<T>(s: seq<T>, prefix: seq<T>, orig: seq<T>, n: nat)
    requires |s| == |orig| && |prefix| == n <= |s|
    requires forall k :: 0 <= k < n ==> s[k] == prefix[k]
    requires forall k :: n <= k < |s| ==> s[k] == orig[k]
    ensures s == prefix + orig[n..]
  {
  }

  /** The message holds what was decoded, and what it held before in the places past it. */
  ghost predicate Holds(m: OscMessage, d: Decoded, address1: Option<string>, typeTag: seq<char>, arg: seq<Word>)
    requires 1 <= |d.segments| <= MaxAddress && |d.tags| <= MaxArg && |d.args| == |d.tags|
    requires |typeTag| == MaxArg && |arg| == MaxArg
    reads m
  {
    m.addressNum == |d.segments|
    && m.address == [Some(d.segments[0]), if |d.segments| == 2 then Some(d.segments[1]) else address1]
    && m.argNum == |d.tags|
    && m.typeTag == d.tags + typeTag[|d.tags|..]
    && m.arg == d.args + arg[|d.tags|..]
  }

  /** Append `s` to the datagram being built in `buff`, keeping its first `len` characters. */
  method Put(buff: array<char>, len: nat, s: seq<char>) returns (newLen: nat)
    requires len + |s| <= buff.Length
    modifies buff
    ensures newLen == len + |s| && buff[..newLen] == old(buff[..len]) + s
  {
    var i := 0;
    while i < |s|
      invariant 0 <= i <= |s|
      invariant buff[..len + i] == old(buff[..len]) + s[..i]
    {
      buff[len + i] := s[i];
      assert buff[..len + i + 1] == buff[..len + i] + [s[i]];
      assert s[..i + 1] == s[..i] + [s[i]];
      i := i + 1;
    }
    newLen := len + |s|;
  }

  lemma {:induction false} ConcatGrows(strings: seq<string>, k: nat)
    requires k <= |strings|
    ensures |Concat(strings[..k])| <= |Concat(strings)|
    decreases |strings| - k
  {
    if k < |strings| {
      ConcatGrows(strings, k + 1);
      assert strings[..k + 1][..k] == strings[..k];
    }
    else {
      assert strings[..k] == strings;
    }
  }

  /** The address segments one after another, then NULs to the next multiple of four. */
  method PutAddresses(buff: array<char>, addresses: seq<string>) returns (len: nat)
    requires PaddedLength(|Concat(addresses)|) <= buff.Length
    modifies buff
    ensures len == PaddedLength(|Concat(addresses)|) && buff[..len] == Pad(Concat(addresses))
  {
    len := 0;
    var i := 0;
    while i < |addresses|
      invariant 0 <= i <= |addresses|
      invariant len == |Concat(addresses[..i])| <= |Concat(addresses)|
      invariant buff[..len] == Concat(addresses[..i])
    {
      assert addresses[..i + 1][..i] == addresses[..i];
      ConcatGrows(addresses, i + 1);
      len := Put(buff, len, addresses[i]);
      i := i + 1;
    }
    assert addresses[..i] == addresses;
    len := Put(buff, len, Zeros(4 - len % 4));
  }

  /** ',' and the type tags, then NULs to the next multiple of four, after a whole number of blocks. */
  method PutTags(buff: array<char>, len: nat, tags: seq<char>) returns (newLen: nat)
    requires len % 4 == 0 && len + PaddedLength(1 + |tags|) <= buff.Length
    modifies buff
    ensures newLen == len + PaddedLength(1 + |tags|)
    ensures buff[..newLen] == old(buff[..len]) + Pad([','] + tags)
  {
    ghost var head := buff[..len];
    newLen := Put(buff, len, [',']);
    newLen := Put(buff, newLen, tags);
    ghost var block := [','] + tags;
    assert buff[..newLen] == head + block by {
      assert head + [','] + tags == head + block;
    }
    PadAfter(head, block);
    newLen := Put(buff, newLen, Zeros(4 - newLen % 4));
  }

  /** A block padded after a whole number of blocks ends on the next boundary. */
  lemma PadAfter(head: seq<char>, block: seq<char>)
    requires |head| % 4 == 0
    ensures head + block + Zeros(4 - (|head| + |block|) % 4) == head + Pad(block)
    ensures |head| + |block| + (4 - (|head| + |block|) % 4) == |head| + PaddedLength(|block|)
  {
    assert (|head| + |block|) % 4 == |block| % 4;
  }

  /** Each argument's bytes, most significant first. */
  method PutArgs(buff: array<char>, len: nat, args: seq<Word>) returns (newLen: nat)
    requires len + 4 * |args| <= buff.Length
    modifies buff
    ensures newLen == len + 4 * |args|
    ensures buff[..newLen] == old(buff[..len]) + ArgBytes(args)
  {
    newLen := len;
    var i := 0;
    while i < |args|
      invariant 0 <= i <= |args|
      invariant newLen == len + 4 * i
      invariant buff[..newLen] == old(buff[..len]) + ArgBytes(args[..i])
    {
      assert args[..i + 1][..i] == args[..i];
      var v := args[i];
      newLen := Put(buff, newLen, [v.b3, v.b2, v.b1, v.b0]);
      i := i + 1;
    }
    assert args[..i] == args;
  }

  class OscClass {
    /** The receive buffer: a datagram lands at its start, over what the one before left there. */
    const rcvBuff: array<char>
    var receiverMessage: OscMessage
    var newMessage: bool
    /** The datagrams handed to the send socket, oldest first. */
    var sent: seq<seq<char>>

    ghost predicate Valid()
      reads this, receiverMessage
    {
      rcvBuff.Length == ReceiveBufferSize && receiverMessage.Valid()
    }

    /** The buffer starts with whatever was in memory. */
    constructor (message: OscMessage, contents: seq<char>)
      requires message.Valid() && |contents| == ReceiveBufferSize
      ensures Valid() && receiverMessage == message && !newMessage && sent == []
      ensures fresh(rcvBuff) && rcvBuff[..] == contents
    {
      rcvBuff := new char[ReceiveBufferSize](i => if 0 <= i < |contents| then contents[i] else Nul);
      receiverMessage := message;
      newMessage := false;
      sent := [];
    }

    method SetReceiveMessage(message: OscMessage)
      modifies this`receiverMessage
      ensures receiverMessage == message
    {
      receiverMessage := message;
    }

    /** The received message, now marked as read. */
    method GetMessage() returns (m: OscMessage)
      modifies this`newMessage
      ensures m == receiverMessage && !newMessage
    {
      newMessage := false;
      m := receiverMessage;
    }

    /** Lay a message out in a 128-byte buffer and hand it to the send socket. */
    method SendOsc(message: OscMessage)
      requires message.Valid() && forall i :: 0 <= i < message.addressNum ==> message.address[i].Some?
      requires forall i :: 0 <= i < message.addressNum ==> Nul !in message.address[i].value
      requires |Encode(message.Addresses(), message.typeTag[..message.argNum], message.arg[..message.argNum])| <= SendBufferSize
      modifies this`sent
      ensures sent == old(sent) + [Encode(message.Addresses(), message.typeTag[..message.argNum], message.arg[..message.argNum])]
    {
      var buff := new char[SendBufferSize];
      var addresses := message.Addresses();
      var tags := message.typeTag[..message.argNum];
      var args := message.arg[..message.argNum];
      ghost var head := Pad(Concat(addresses));
      ghost var middle := head + Pad([','] + tags);
      var lengthEnd := PutAddresses(buff, addresses);
      lengthEnd := PutTags(buff, lengthEnd, tags);
      assert buff[..lengthEnd] == middle;
      lengthEnd := PutArgs(buff, lengthEnd, args);
      sent := sent + [buff[..lengthEnd]];
    }

    /**
     * Scan the address up to and including its terminator: the segments
     * it holds, and the start of the block after it. The 4-byte check is
     * made on every character, '/' included.
     */
    method ScanAddress() returns (rows: seq<string>, tagStart: nat)
      requires FirstNul(rcvBuff[..], 0) < rcvBuff.Length
      requires |Segments(rcvBuff[..FirstNul(rcvBuff[..], 0)])| <= MaxAddress
      ensures rows == Segments(rcvBuff[..FirstNul(rcvBuff[..], 0)])
      ensures tagStart == PaddedLength(FirstNul(rcvBuff[..], 0))
    {
      ghost var buf := rcvBuff[..];
      ghost var nul := FirstNul(buf, 0);
      var messagePos := 0;
      var packetCount := 0;
      var packetPos := 4;
      rows := [[]];
      var done := false;
      ghost var seenLen := 0;
      ghost var blocks := 1;
      while !done
        invariant messagePos <= nul + 1 && (done <==> messagePos == nul + 1)
        invariant seenLen == (if done then nul else messagePos)
        invariant rows == Segments(buf[..seenLen])
        invariant packetPos == 4 * blocks && packetCount == messagePos + 4 - packetPos
        invariant messagePos == 0 ==> packetPos == 4
        invariant messagePos > 0 ==> messagePos <= packetPos <= messagePos + 3
        decreases nul + 1 - messagePos
      {
        var c := rcvBuff[messagePos];
        AtFirstNul(buf, 0, messagePos);
        if c != Nul {
          rows := KeepAddressChar(c, rows, messagePos, buf[..messagePos]);
          PrefixSnoc(buf, messagePos);
          seenLen := messagePos + 1;
        }
        if packetCount > 3 {
          packetCount := 0;
          packetPos := packetPos + 4;
          blocks := blocks + 1;
        }
        messagePos := messagePos + 1;
        packetCount := packetCount + 1;
        done := c == Nul;
      }
      assert packetPos == PaddedLength(nul) by {
        PaddedLengthIs(nul, blocks);
      }
      tagStart := packetPos;
    }

    /**
     * Scan the type tags from `tagStart` to their terminator: the first
     * MaxArg that are not ',', and the start of the block after them.
     */
    method ScanTags(tagStart: nat) returns (tags: seq<char>, argStart: nat)
      requires tagStart < rcvBuff.Length && FirstNul(rcvBuff[..], tagStart) < rcvBuff.Length
      ensures tags == TagsOf(rcvBuff[tagStart..FirstNul(rcvBuff[..], tagStart)])
      ensures argStart == tagStart + PaddedLength(FirstNul(rcvBuff[..], tagStart) - tagStart)
    {
      ghost var buf := rcvBuff[..];
      ghost var tagEnd := FirstNul(buf, tagStart);
      var messagePos := tagStart;
      var packetCount := 0;
      var packetPos := tagStart + 4;
      var typeTagPos := 0;
      tags := [];
      ghost var blocks := 1;
      while rcvBuff[messagePos] != Nul
        invariant tagStart <= messagePos <= tagEnd
        invariant typeTagPos == |NonCommas(buf[tagStart..messagePos])|
        invariant tags == TagsOf(buf[tagStart..messagePos])
        invariant packetPos == tagStart + 4 * blocks && packetCount == messagePos + 4 - packetPos
        invariant messagePos < packetPos <= messagePos + 4
        decreases tagEnd - messagePos
      {
        var c := rcvBuff[messagePos];
        AtFirstNul(buf, tagStart, messagePos);
        tags, typeTagPos := KeepTag(c, tags, typeTagPos, buf[tagStart..messagePos]);
        SliceSnoc(buf, tagStart, messagePos);
        packetCount := packetCount + 1;
        if packetCount > 3 {
          packetCount := 0;
          packetPos := packetPos + 4;
          blocks := blocks + 1;
        }
        messagePos := messagePos + 1;
      }
      AtFirstNul(buf, tagStart, messagePos);
      assert packetPos - tagStart == PaddedLength(tagEnd - tagStart) by {
        PaddedLengthIs(tagEnd - tagStart, blocks);
      }
      argStart := packetPos;
    }

    /** The four bytes at `at`, stored into the word from its last byte down. */
    method ReadWord(at: nat) returns (w: Word)
      requires at + 4 <= rcvBuff.Length
      ensures w == WordAt(rcvBuff[..], at)
    {
      var bytes := [Nul, Nul, Nul, Nul];
      var adrMesPos := 3;
      var j := 0;
      while j < 4
        invariant 0 <= j <= 4 && adrMesPos == 3 - j && |bytes| == 4
        invariant forall k :: at <= k < at + j ==> bytes[3 - (k - at)] == rcvBuff[k]
      {
        bytes := bytes[adrMesPos := rcvBuff[at + j]];
        adrMesPos := adrMesPos - 1;
        j := j + 1;
      }
      w := Word(bytes[0], bytes[1], bytes[2], bytes[3]);
    }

    /** `n` arguments from `argStart`, four bytes each. */
    method ReadArgs(argStart: nat, n: nat) returns (args: seq<Word>)
      requires argStart + 4 * n <= rcvBuff.Length
      ensures args == ArgsAt(rcvBuff[..], argStart, n)
    {
      args := [];
      var messagePos := argStart;
      var i := 0;
      while i < n
        invariant 0 <= i <= n
        invariant messagePos == argStart + 4 * i
        invariant args == ArgsAt(rcvBuff[..], argStart, i)
      {
        var w := ReadWord(messagePos);
        args := args + [w];
        messagePos := messagePos + 4;
        i := i + 1;
      }
    }

    /** The message in the receive buffer, read field by field. */
    method Parse() returns (d: Decoded)
      requires Decode(rcvBuff[..]).Some?
      ensures Decode(rcvBuff[..]) == Some(d)
    {
      ghost var buf := rcvBuff[..];
      DecodeBlocks(buf);
      var rows, tagStart := ScanAddress();
      var tags, argStart := ScanTags(tagStart);
      assert argStart + 4 * |tags| <= |buf| && Decode(buf) == Some(Decoded(rows, tags, ArgsAt(buf, argStart, |tags|))) by {
        DecodeFrom(buf, tagStart, FirstNul(buf, tagStart), argStart);
      }
      var args := ReadArgs(argStart, |tags|);
      d := Decoded(rows, tags, args);
    }

    /**
     * Decode the datagram in the receive buffer into the receiver's
     * message: the address, the type tags and the arguments, each from the
     * 4-byte block where the one before it ends.
     */
    method DecodePacket()
      requires Valid() && Decode(rcvBuff[..]).Some?
      modifies receiverMessage
      ensures receiverMessage.Valid()
      ensures Holds(receiverMessage, Decode(rcvBuff[..]).value,
                    old(receiverMessage.address[1]), old(receiverMessage.typeTag), old(receiverMessage.arg))
    {
      var d := Parse();
      var rows, tags, args := d.segments, d.tags, d.args;
      receiverMessage.address := [Some(rows[0]), if |rows| == 2 then Some(rows[1]) else receiverMessage.address[1]];
      receiverMessage.addressNum := |rows|;
      receiverMessage.argNum := |tags|;
      receiverMessage.typeTag := tags + receiverMessage.typeTag[|tags|..];
      receiverMessage.arg := args + receiverMessage.arg[|tags|..];
    }

    /** The socket writes a datagram over the start of the receive buffer. */
    method Receive(datagram: seq<char>)
      requires |datagram| <= rcvBuff.Length
      modifies rcvBuff
      ensures rcvBuff[..] == datagram + old(rcvBuff[|datagram|..])
    {
      var k := 0;
      while k < |datagram|
        invariant 0 <= k <= |datagram|
        invariant forall j :: 0 <= j < k ==> rcvBuff[j] == datagram[j]
        invariant forall j :: k <= j < rcvBuff.Length ==> rcvBuff[j] == old(rcvBuff[j])
      {
        rcvBuff[k] := datagram[k];
        k := k + 1;
      }
      Spliced(rcvBuff[..], datagram, old(rcvBuff[..]), k);
    }

    /**
     * A datagram arrived: it is copied to the start of the receive buffer
     * and, when it is not empty, decoded into the receiver's message and
     * flagged as new.
     */
    method OnReadable(datagram: seq<char>)
      requires Valid() && |datagram| <= ReceiveBufferSize
      requires |datagram| > 0 ==> Decode(datagram + rcvBuff[|datagram|..]).Some?
      modifies rcvBuff, receiverMessage, this`newMessage
      ensures Valid() && rcvBuff[..] == datagram + old(rcvBuff[|datagram|..])
      ensures |datagram| == 0 ==> newMessage == old(newMessage) && unchanged(receiverMessage)
      ensures |datagram| > 0 ==> newMessage && Holds(receiverMessage, Decode(rcvBuff[..]).value,
                    old(receiverMessage.address[1]), old(receiverMessage.typeTag), old(receiverMessage.arg))
    {
      Receive(datagram);
      if |datagram| > 0 {
        DecodePacket();
        newMessage := true;
      }
    }
  }
}
