/**
 * The OLED display's frame buffer: eight pages of 132 columns, one byte
 * per column holding eight vertical pixels, 128 of the columns visible.
 * The writers clear the buffer or one page, draw a horizontal line, and
 * typeset text into a page, never writing outside the page they address.
 */
module OledBuffer {

  const BufferCount: int := 1056
  const BufferWidth: int := 132
  const PixelWidth: int := 128
  const PixelHeight: int := 64
  const PixInPage: int := 8
  const PageCount: int := 8

  /** The characters the font has glyphs for. */
  const FirstGlyph: char := 33 as char
  const LastGlyph: char := 126 as char

  /**
   * A font: per character from 33 to 126, a glyph whose first byte is its
   * width in columns and whose next bytes are those columns.
   */
  type Font = seq<seq<bv8>>

  predicate ValidFont(font: Font)
  {
    |font| == LastGlyph as int - FirstGlyph as int + 1
    && forall g :: 0 <= g < |font| ==> |font[g]| >= 1 && font[g][0] as int + 1 <= |font[g]|
  }

  /** `buf` with `bytes` written from index `start` on. */
  function Overwrite(buf: seq<bv8>, start: int, bytes: seq<bv8>): (r: seq<bv8>)
    requires 0 <= start && start + |bytes| <= |buf|
    ensures |r| == |buf|
  {
    seq(|buf|, k requires 0 <= k < |buf| => if start <= k < start + |bytes| then bytes[k - start] else buf[k])
  }

  /** An overwrite changes exactly the bytes it covers, and nothing outside them. */
  lemma OverwriteBounds(buf: seq<bv8>, start: int, bytes: seq<bv8>, k: int)
    requires 0 <= start && start + |bytes| <= |buf| && 0 <= k < |buf|
    ensures start <= k < start + |bytes| ==> Overwrite(buf, start, bytes)[k] == bytes[k - start]
    ensures !(start <= k < start + |bytes|) ==> Overwrite(buf, start, bytes)[k] == buf[k]
  {
  }

  /** Writing one more byte right after an overwrite extends it. */
  lemma OverwriteSnoc(buf: seq<bv8>, start: int, bytes: seq<bv8>, b: bv8)
    requires 0 <= start && start + |bytes| < |buf|
    ensures Overwrite(buf, start, bytes)[start + |bytes| := b] == Overwrite(buf, start, bytes + [b])
  {
  }

  /** Writing nothing leaves the buffer as it was. */
  lemma OverwriteNothing(buf: seq<bv8>, start: int)
    requires 0 <= start <= |buf|
    ensures Overwrite(buf, start, []) == buf
  {
  }

  function Zeros(n: nat): (z: seq<bv8>)
    ensures |z| == n && forall k :: 0 <= k < n ==> z[k] == 0
  {
    seq(n, _ => 0)
  }

  /** The columns a glyph draws: as many as its first byte says, from its second byte on. */
  function GlyphColumns(glyph: seq<bv8>): (cols: seq<bv8>)
    requires |glyph| >= 1 && glyph[0] as int + 1 <= |glyph|
    ensures |cols| == glyph[0] as int
  {
    glyph[1..glyph[0] as int + 1]
  }

  /** The columns a character takes: its glyph and a blank column, or five blank columns when it has none. */
  function CharColumns(c: char, font: Font): (cols: seq<bv8>)
    requires ValidFont(font)
    ensures |cols| >= 1
  {
    if c < FirstGlyph || c > LastGlyph then Zeros(5)
    else
      GlyphColumns(font[c as int - FirstGlyph as int]) + [0]
  }

  /** The columns of each character of a message. */
  function CharacterColumns(message: string, font: Font): (parts: seq<seq<bv8>>)
    requires ValidFont(font)
    ensures |parts| == |message|
  {
    seq(|message|, k requires 0 <= k < |message| => CharColumns(message[k], font))
  }

  /** The first `n` runs of columns, one after the other. */
  function Joined(parts: seq<seq<bv8>>, n: nat): seq<bv8>
    requires n <= |parts|
  {
    if n == 0 then [] else Joined(parts, n - 1) + parts[n - 1]
  }

  /** Runs of at least one column each join into at least one column per run. */
  lemma {:induction false} JoinedAtLeast(parts: seq<seq<bv8>>, n: nat)
    requires n <= |parts|
    requires forall k :: 0 <= k < n ==> |parts[k]| >= 1
    ensures |Joined(parts, n)| >= n
  {
    if n > 0 {
      JoinedAtLeast(parts, n - 1);
    }
  }

  /** The columns of a whole message, character after character. */
  function Typeset(message: string, font: Font): (cols: seq<bv8>)
    requires ValidFont(font)
    ensures |cols| >= |message|
    ensures |message| == 0 ==> cols == []
  {
    JoinedAtLeast(CharacterColumns(message, font), |message|);
    Joined(CharacterColumns(message, font), |message|)
  }

  /** What fits in a page's visible columns. */
  function Capped(cols: seq<bv8>): (r: seq<bv8>)
    ensures |r| <= PixelWidth
    ensures |cols| <= PixelWidth ==> r == cols
    ensures |cols| > PixelWidth ==> r == cols[..PixelWidth]
  {
    if |cols| <= PixelWidth then cols else cols[..PixelWidth]
  }

  /** Once a page is full, appending columns changes nothing that fits. */
  lemma CappedFull(a: seq<bv8>, b: seq<bv8>)
    requires |Capped(a)| == PixelWidth
    ensures Capped(a + b) == Capped(a)
  {
    assert (a + b)[..PixelWidth] == a[..PixelWidth];
  }

  lemma SnocAssoc(a: seq<bv8>, b: seq<bv8>, c: bv8)
    ensures a + (b + [c]) == a + b + [c]
  {
  }

  /** Once a page is full, any longer columns starting with the same ones show the same. */
  lemma CappedPrefix(a: seq<bv8>, b: seq<bv8>)
    requires |a| <= |b| && b[..|a|] == a && |Capped(a)| == PixelWidth
    ensures Capped(b) == Capped(a)
  {
    assert b[..PixelWidth] == b[..|a|][..PixelWidth];
  }

  /** Below the cap, one more column lands right after the others. */
  lemma CappedSnoc(a: seq<bv8>, b: bv8)
    requires |Capped(a)| < PixelWidth
    ensures Capped(a + [b]) == Capped(a) + [b]
  {
  }

  /** Joining more runs of columns keeps the ones joined before at the front. */
  lemma {:induction false} JoinedPrefix(parts: seq<seq<bv8>>, i: nat, j: nat)
    requires i <= j <= |parts|
    ensures |Joined(parts, i)| <= |Joined(parts, j)|
    ensures Joined(parts, j)[..|Joined(parts, i)|] == Joined(parts, i)
    decreases j
  {
    if i < j {
      JoinedPrefix(parts, i, j - 1);
      var shorter := Joined(parts, j - 1);
      assert Joined(parts, j)[..|shorter|] == shorter;
    }
  }

  /** Once the runs joined so far fill the page, the rest add nothing that fits. */
  lemma JoinedFull(parts: seq<seq<bv8>>, i: nat)
    requires i <= |parts|
    requires |Capped(Joined(parts, i))| == PixelWidth
    ensures Capped(Joined(parts, |parts|)) == Capped(Joined(parts, i))
  {
    JoinedPrefix(parts, i, |parts|);
    CappedPrefix(Joined(parts, i), Joined(parts, |parts|));
  }

  /** What a page shows of a message's first `i` characters. */
  ghost function Shown(message: string, font: Font, i: nat): seq<bv8>
    requires ValidFont(font) && i <= |message|
  {
    Capped(Joined(CharacterColumns(message, font), i))
  }

  /** A message's columns grow by one character's columns at a time. */
  lemma TypesetNext(message: string, font: Font, i: nat)
    requires ValidFont(font) && i < |message|
    ensures Joined(CharacterColumns(message, font), i + 1)
         == Joined(CharacterColumns(message, font), i) + CharColumns(message[i], font)
  {
    var parts := CharacterColumns(message, font);
    assert parts[i] == CharColumns(message[i], font);
  }

  /** Once the first `i` characters fill a page, the rest of the message is cut off. */
  lemma TypesetFull(message: string, font: Font, i: nat)
    requires ValidFont(font) && i <= |message|
    requires |Capped(Joined(CharacterColumns(message, font), i))| == PixelWidth
    ensures Capped(Typeset(message, font)) == Capped(Joined(CharacterColumns(message, font), i))
  {
    JoinedFull(CharacterColumns(message, font), i);
  }

  /** The first byte of the page a text row addresses; rows past the last page use the last page. */
  function TextStart(row: nat): (s: int)
    ensures 0 <= s && s + PixelWidth <= BufferCount
    ensures s % BufferWidth == 0
  {
    (if row >= PageCount then PageCount - 1 else row) * BufferWidth
  }

  class Display {
    const buffer: array<bv8>

    ghost predicate Valid()
      reads this
    {
      buffer.Length == BufferCount
    }

    /** The display starts with a cleared buffer. */
    constructor ()
      ensures Valid() && fresh(buffer)
      ensures buffer[..] == Zeros(BufferCount)
    {
      buffer := new bv8[BufferCount](_ => 0);
    }

    method ClearBuffer()
      requires Valid()
      modifies buffer
      ensures buffer[..] == Zeros(BufferCount)
    {
      var k := 0;
      while k < buffer.Length
        invariant 0 <= k <= buffer.Length
        invariant forall j :: 0 <= j < k ==> buffer[j] == 0
      {
        buffer[k] := 0;
        k := k + 1;
      }
    }

    /**
     * Clear one page: its 128 visible columns and the one after them. A
     * page number past the last is refused and nothing changes.
     */
    method ClearBufferRow(row: int)
      requires Valid() && row >= 0
      modifies buffer
      ensures row >= PageCount ==> buffer[..] == old(buffer[..])
      ensures row < PageCount ==> buffer[..] == Overwrite(old(buffer[..]), row * BufferWidth, Zeros(PixelWidth + 1))
    {
      if row >= PageCount {
        return;
      }
      var bStart := row * BufferWidth;
      var bEnd := bStart + PixelWidth;
      var bPos := bStart;
      while bPos <= bEnd
        invariant bStart <= bPos <= bEnd + 1
        invariant forall k :: 0 <= k < buffer.Length && !(bStart <= k < bPos) ==> buffer[k] == old(buffer[k])
        invariant forall k :: bStart <= k < bPos ==> buffer[k] == 0
      {
        buffer[bPos] := 0;
        bPos := bPos + 1;
      }
    }

    /**
     * Draw a horizontal line at pixel row `y`: set bit `y % 8` of the 129
     * columns of page `y / 8`, keeping every other bit. A row below the
     * screen is refused and nothing changes.
     */
    method HorizLineToBuffer(y: int)
      requires Valid() && y >= 0
      modifies buffer
      ensures y >= PixelHeight ==> buffer[..] == old(buffer[..])
      ensures y < PixelHeight ==> forall k :: 0 <= k < buffer.Length ==>
        buffer[k] == if y / PixInPage * BufferWidth <= k <= y / PixInPage * BufferWidth + PixelWidth
                     then old(buffer[k]) | (1 << (y % PixInPage)) else old(buffer[k])
    {
      if y >= PixelHeight {
        return;
      }
      var row := (y * PixInPage) / PixelHeight;
      var posInRow := y % PixInPage;
      assert row == y / PixInPage;
      var bStart := row * BufferWidth;
      var bEnd := bStart + PixelWidth;
      var bPos := bStart;
      while bPos <= bEnd
        invariant bStart <= bPos <= bEnd + 1
        invariant forall k :: 0 <= k < buffer.Length && !(bStart <= k < bPos) ==> buffer[k] == old(buffer[k])
        invariant forall k :: bStart <= k < bPos ==> buffer[k] == old(buffer[k]) | (1 << posInRow)
      {
        buffer[bPos] := buffer[bPos] | (1 << posInRow);
        bPos := bPos + 1;
      }
    }

    /**
     * Write columns after those already typeset, as far as the page's
     * visible columns go.
     */
    method PutColumns(cols: seq<bv8>, bStart: int, bPos: int, ghost before: seq<bv8>, ghost typeset: seq<bv8>)
      returns (newPos: int)
      requires Valid() && 0 <= bStart && bStart + PixelWidth <= BufferCount && |before| == BufferCount
      requires bPos - bStart == |Capped(typeset)|
      requires buffer[..] == Overwrite(before, bStart, Capped(typeset))
      modifies buffer
      ensures newPos - bStart == |Capped(typeset + cols)|
      ensures buffer[..] == Overwrite(before, bStart, Capped(typeset + cols))
    {
      var bEnd := bStart + PixelWidth;
      newPos := bPos;
      var j := 0;
      while j < |cols|
        invariant 0 <= j <= |cols|
        invariant newPos - bStart == |Capped(typeset + cols[..j])|
        invariant buffer[..] == Overwrite(before, bStart, Capped(typeset + cols[..j]))
      {
        ghost var done := typeset + cols[..j];
        if newPos >= bEnd {
          assert Capped(typeset + cols) == Capped(done) by {
            CappedFull(done, cols[j..]);
            assert done + cols[j..] == typeset + cols;
          }
          return;
        }
        assert Capped(typeset + cols[..j + 1]) == Capped(done) + [cols[j]] by {
          CappedSnoc(done, cols[j]);
          assert typeset + cols[..j + 1] == done + [cols[j]];
        }
        assert buffer[..][newPos := cols[j]] == Overwrite(before, bStart, Capped(done) + [cols[j]]) by {
          OverwriteSnoc(before, bStart, Capped(done), cols[j]);
        }
        buffer[newPos] := cols[j];
        newPos := newPos + 1;
        j := j + 1;
      }
      assert cols[..j] == cols;
    }

    /**
     * One character of a message: five blank columns when the font has no
     * glyph for it, else its glyph and a blank column. `pageFull` reports
     * the page filling up before the blank column, where typesetting stops.
     */
    method PutCharacter(character: char, font: Font, bStart: int, bPos: int, ghost before: seq<bv8>, ghost typeset: seq<bv8>)
      returns (newPos: int, pageFull: bool)
      requires Valid() && ValidFont(font)
      requires 0 <= bStart && bStart + PixelWidth <= BufferCount && |before| == BufferCount
      requires bPos - bStart == |Capped(typeset)|
      requires buffer[..] == Overwrite(before, bStart, Capped(typeset))
      modifies buffer
      ensures newPos - bStart == |Capped(typeset + CharColumns(character, font))|
      ensures buffer[..] == Overwrite(before, bStart, Capped(typeset + CharColumns(character, font)))
      ensures pageFull ==> newPos - bStart == PixelWidth
    {
      var bEnd := bStart + PixelWidth;
      pageFull := false;
      if character < FirstGlyph || character > LastGlyph {
        newPos := PutColumns(Zeros(5), bStart, bPos, before, typeset);
      } else {
        var glyph := font[character as int - FirstGlyph as int];
        var cols := GlyphColumns(glyph);
        newPos := PutColumns(cols, bStart, bPos, before, typeset);
        assert typeset + CharColumns(character, font) == typeset + cols + [0] by {
          assert cols + [0] == CharColumns(character, font);
          SnocAssoc(typeset, cols, 0);
        }
        if newPos >= bEnd {
          CappedFull(typeset + cols, [0]);
          pageFull := true;
          return;
        }
        CappedSnoc(typeset + cols, 0);
        OverwriteSnoc(before, bStart, Capped(typeset + cols), 0);
        buffer[newPos] := 0;
        newPos := newPos + 1;
      }
    }

    /** The next character of a message, after the columns of those before it. */
    method PutNext(message: string, i: int, font: Font, bStart: int, bPos: int, ghost before: seq<bv8>)
      returns (newPos: int, pageFull: bool)
      requires Valid() && ValidFont(font) && 0 <= i < |message|
      requires 0 <= bStart && bStart + PixelWidth <= BufferCount && |before| == BufferCount
      requires bPos - bStart == |Shown(message, font, i)|
      requires buffer[..] == Overwrite(before, bStart, Shown(message, font, i))
      modifies buffer
      ensures newPos - bStart == |Shown(message, font, i + 1)|
      ensures buffer[..] == Overwrite(before, bStart, Shown(message, font, i + 1))
      ensures pageFull ==> Shown(message, font, i + 1) == Capped(Typeset(message, font))
    {
      TypesetNext(message, font, i);
      newPos, pageFull := PutCharacter(message[i], font, bStart, bPos, before, Joined(CharacterColumns(message, font), i));
      if pageFull {
        TypesetFull(message, font, i + 1);
      }
    }

    /**
     * Typeset a message into a page, left-aligned: each character's glyph
     * and a blank column, or five blank columns for a character without a
     * glyph, cut off at the 128th column. Rows past the last page write
     * into the last page; the rest of the buffer is untouched.
     */
    method TextToBuffer(message: string, row: int, font: Font)
      requires Valid() && row >= 0 && ValidFont(font)
      modifies buffer
      ensures buffer[..] == Overwrite(old(buffer[..]), TextStart(row), Capped(Typeset(message, font)))
    {
      var r := if row >= PageCount then PageCount - 1 else row;
      var bStart := r * BufferWidth;
      var bPos := bStart;
      ghost var before := buffer[..];
      assert buffer[..] == Overwrite(before, bStart, Shown(message, font, 0)) by {
        OverwriteNothing(before, bStart);
      }
      var i := 0;
      while i < |message|
        invariant 0 <= i <= |message|
        invariant bPos - bStart == |Shown(message, font, i)|
        invariant buffer[..] == Overwrite(before, bStart, Shown(message, font, i))
      {
        var pageFull;
        bPos, pageFull := PutNext(message, i, font, bStart, bPos, before);
        if pageFull {
          return;
        }
        i := i + 1;
      }
    }
  }
}
