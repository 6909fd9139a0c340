/** The capped output buffer of a shell run (crates/pier-agent/src/shell.rs). */
module ShellStream {

  import opened Text

  const MAX_STREAM_BYTES: nat := 5 * 1024 * 1024

  const NEWLINE: byte := 10

  function Ascii(s: string): (r: seq<byte>)
    requires forall c | c in s :: c < 128 as char
    ensures |r| == |s|
  {
    seq(|s|, i requires 0 <= i < |s| => assert s[i] in s; s[i] as int as byte)
  }

  const MARKER: seq<byte> := Ascii("\n[output truncated -- exceeded 5 MiB cap]\n")

  // ----- what the buffer is for -----------------------------------------------------------

  /** The byte stream of the lines read so far. */
  function Stream(lines: seq<seq<byte>>): seq<byte> {
    if lines == [] then [] else Stream(lines[..|lines| - 1]) + lines[|lines| - 1] + [10]
  }

  /** The whole stream when it fits, else its first bytes and one marker. */
  function Capped(s: seq<byte>): seq<byte> {
    if |s| <= MAX_STREAM_BYTES then s else s[..MAX_STREAM_BYTES] + MARKER
  }

  // ----- the buffer -----------------------------------------------------------------------

  datatype Buffer = Buffer(buf: seq<byte>, truncated: bool)

  function Appended(b: Buffer, line: seq<byte>): Buffer {
    if b.truncated then b
    else
      var remaining := if |b.buf| <= MAX_STREAM_BYTES then MAX_STREAM_BYTES - |b.buf| else 0;
      if remaining == 0 then Buffer(b.buf + MARKER, true)
      else if |line| + 1 > remaining then
        Buffer(b.buf + line[..if remaining < |line| then remaining else |line|] + MARKER, true)
      else Buffer(b.buf + line + [NEWLINE], false)
  }

  class StreamBuf {
    var buf: seq<byte>
    var truncated: bool

    function Model(): Buffer
      reads this
    {
      Buffer(buf, truncated)
    }

    constructor ()
      ensures Model() == AfterLines([])
    {
      buf, truncated := [], false;
    }

    method AppendLine(line: seq<byte>)
      modifies this
      ensures Model() == Appended(old(Model()), line)
    {
      if truncated {
        return;
      }
      var remaining := if |buf| <= MAX_STREAM_BYTES then MAX_STREAM_BYTES - |buf| else 0;
      if remaining == 0 {
        truncated := true;
        buf := buf + MARKER;
        return;
      }
      if |line| + 1 > remaining {
        buf := buf + line[..if remaining < |line| then remaining else |line|];
        buf := buf + MARKER;
        truncated := true;
        return;
      }
      buf := buf + line;
      buf := buf + [NEWLINE];
    }
  }

  // ----- every sequence of lines ----------------------------------------------------------

  /** A fresh buffer after every line, oldest first. */
  function AfterLines(lines: seq<seq<byte>>): Buffer {
    if lines == [] then Buffer([], false)
    else Appended(AfterLines(lines[..|lines| - 1]), lines[|lines| - 1])
  }

  /** One line keeps the buffer equal to the capped stream. */
  lemma AppendKeepsCapped(s: seq<byte>, line: seq<byte>)
    ensures Appended(Buffer(Capped(s), |s| > MAX_STREAM_BYTES), line)
         == Buffer(Capped(s + line + [NEWLINE]), |s + line + [NEWLINE]| > MAX_STREAM_BYTES)
  {
    hide Ascii;
    var t := s + line + [NEWLINE];
    if |s| > MAX_STREAM_BYTES {
      assert t[..MAX_STREAM_BYTES] == s[..MAX_STREAM_BYTES];
    } else if |s| == MAX_STREAM_BYTES {
      assert t[..MAX_STREAM_BYTES] == s;
    } else if |t| > MAX_STREAM_BYTES {
      var remaining := MAX_STREAM_BYTES - |s|;
      assert t[..MAX_STREAM_BYTES] == s + line[..remaining];
    }
  }

  /**
   * Whatever the lines, the buffer holds their stream while it fits in 5 MiB and otherwise its
   * first 5 MiB and one marker; the flag is up exactly when bytes were dropped.
   */
  lemma BufferIsCappedStream(lines: seq<seq<byte>>)
    ensures var s := Stream(lines);
            AfterLines(lines) ==
              if |s| <= 0x50_0000 then Buffer(s, false)
              else Buffer(s[..0x50_0000] + Ascii("\n[output truncated -- exceeded 5 MiB cap]\n"), true)
  {
    hide AfterLines, Stream, Ascii;
    BufferIsCapped(lines);
  }

  lemma {:induction false} BufferIsCapped(lines: seq<seq<byte>>)
    ensures AfterLines(lines) == Buffer(Capped(Stream(lines)), |Stream(lines)| > MAX_STREAM_BYTES)
  {
    hide Appended, Capped, Ascii;
    if lines == [] {
      assert Capped([]) == [] by { NothingIsCapped(); }
    } else {
      var before := lines[..|lines| - 1];
      BufferIsCapped(before);
      AppendKeepsCapped(Stream(before), lines[|lines| - 1]);
    }
  }

  lemma NothingIsCapped()
    ensures Capped([]) == []
  {
    var none: seq<byte> := [];
    assert |none| <= MAX_STREAM_BYTES;
  }

  lemma {:induction false} StreamSplits(a: seq<seq<byte>>, b: seq<seq<byte>>)
    ensures Stream(a + b) == Stream(a) + Stream(b)
    decreases |b|
  {
    if b == [] {
      assert a + b == a;
    } else {
      var c := b[..|b| - 1];
      assert (a + b)[..|a + b| - 1] == a + c;
      StreamSplits(a, c);
      assert (a + b)[|a + b| - 1] == b[|b| - 1];
    }
  }

  /** A later snapshot never takes back a byte an earlier one showed, and memory stays bounded. */
  lemma SnapshotsOnlyGrow(lines: seq<seq<byte>>, more: seq<seq<byte>>)
    ensures AfterLines(lines).buf <= AfterLines(lines + more).buf
    ensures AfterLines(lines).truncated ==> AfterLines(lines + more) == AfterLines(lines)
    ensures |AfterLines(lines).buf| <= MAX_STREAM_BYTES + |MARKER|
  {
    hide AfterLines, Stream, Ascii;
    BufferIsCapped(lines);
    BufferIsCapped(lines + more);
    StreamSplits(lines, more);
    var s, t := Stream(lines), Stream(lines + more);
    if |s| <= MAX_STREAM_BYTES {
      if |t| > MAX_STREAM_BYTES {
        assert t[..MAX_STREAM_BYTES][..|s|] == s;
      }
    } else {
      assert t[..MAX_STREAM_BYTES] == s[..MAX_STREAM_BYTES];
    }
  }
}
