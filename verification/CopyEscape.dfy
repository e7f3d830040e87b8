/** The reader that escapes a file for the text format of PostgreSQL's COPY protocol. */
module CopyEscape {
  import opened Common
  import BlobStream

  const CHUNK_SIZE := 4 * 1024
  const BACKSLASH: byte := 92
  const NEWLINE: byte := 10
  const RETURN: byte := 13
  const TAB: byte := 9
  const LOWER_N: byte := 110
  const LOWER_R: byte := 114
  const LOWER_T: byte := 116

  predicate Special(c: byte) {
    c == BACKSLASH || c == NEWLINE || c == RETURN || c == TAB
  }

  function EscapeByte(c: byte): Bytes {
    if c == BACKSLASH then [BACKSLASH, BACKSLASH]
    else if c == NEWLINE then [BACKSLASH, LOWER_N]
    else if c == RETURN then [BACKSLASH, LOWER_R]
    else if c == TAB then [BACKSLASH, LOWER_T]
    else [c]
  }

  /** A backslash, newline, carriage return and tab become a backslash and a letter; other bytes stay. */
  lemma EscapesAre(c: byte)
    ensures EscapeByte(c) ==
            if c == 92 then [92, 92]
            else if c == 10 then [92, 110]
            else if c == 13 then [92, 114]
            else if c == 9 then [92, 116]
            else [c]
  {
  }

  function Escape(text: Bytes): Bytes {
    if text == [] then [] else EscapeByte(text[0]) + Escape(text[1..])
  }

  lemma {:induction false} EscapeAppend(a: Bytes, b: Bytes)
    ensures Escape(a + b) == Escape(a) + Escape(b)
  {
    if a == [] {
      assert a + b == b;
    } else {
      assert (a + b)[1..] == a[1..] + b;
      EscapeAppend(a[1..], b);
    }
  }

  lemma EscapeSnoc(a: Bytes, c: byte)
    ensures Escape(a + [c]) == Escape(a) + EscapeByte(c)
  {
    EscapeAppend(a, [c]);
    assert [c][1..] == [];
    assert Escape([c]) == EscapeByte(c);
  }

  /** Text without special bytes is its own escape: the fast path agrees with the slow one. */
  lemma {:induction false} PlainEscapesToItself(text: Bytes)
    requires forall i :: 0 <= i < |text| ==> !Special(text[i])
    ensures Escape(text) == text
  {
    if text != [] {
      PlainEscapesToItself(text[1..]);
    }
  }

  lemma {:induction false} EscapeAtMostDoubles(text: Bytes)
    ensures |text| <= |Escape(text)| <= 2 * |text|
  {
    if text != [] {
      EscapeAtMostDoubles(text[1..]);
    }
  }

  /** How COPY reads text back: a backslash gives the next byte its meaning. */
  function Unescape(s: Bytes): Option<Bytes> {
    if s == [] then Some([])
    else if s[0] != BACKSLASH then
      var rest := Unescape(s[1..]);
      if rest.None? then None else Some([s[0]] + rest.value)
    else if |s| == 1 then None
    else
      var c :=
        if s[1] == LOWER_N then NEWLINE else if s[1] == LOWER_R then RETURN
        else if s[1] == LOWER_T then TAB else s[1];
      var rest := Unescape(s[2..]);
      if rest.None? then None else Some([c] + rest.value)
  }

  lemma UnescapeOne(c: byte, later: Bytes)
    requires Unescape(later).Some?
    ensures Unescape(EscapeByte(c) + later) == Some([c] + Unescape(later).value)
  {
    var e := EscapeByte(c);
    assert (e + later)[|e|..] == later;
  }

  /** Escaping is undone by COPY's reading. */
  lemma {:induction false} RoundTrip(text: Bytes)
    ensures Unescape(Escape(text)) == Some(text)
  {
    if text != [] {
      RoundTrip(text[1..]);
      UnescapeOne(text[0], Escape(text[1..]));
      assert text == [text[0]] + text[1..];
    }
  }

  /** Escaped text holds no raw newline, carriage return or tab. */
  lemma {:induction false} NoRawSeparators(text: Bytes)
    ensures forall c :: c in Escape(text) ==> c != NEWLINE && c != RETURN && c != TAB
  {
    if text != [] {
      NoRawSeparators(text[1..]);
    }
  }

  lemma EscapeNext(buf: Bytes, done: Bytes, c: byte)
    ensures buf + Escape(done) + EscapeByte(c) == buf + Escape(done + [c])
  {
    EscapeSnoc(done, c);
  }

  method AppendEscapedText(buf: Bytes, text: Bytes) returns (result: Bytes)
    ensures result == buf + Escape(text)
  {
    var escapeNeeded, startPos := false, 0;
    var i := 0;
    while i < |text| && !escapeNeeded
      invariant 0 <= i <= |text|
      invariant escapeNeeded ==> startPos == i < |text|
      invariant forall k :: 0 <= k < i ==> !Special(text[k])
      decreases |text| - i, !escapeNeeded
    {
      if Special(text[i]) {
        escapeNeeded, startPos := true, i;
      } else {
        i := i + 1;
      }
    }
    if !escapeNeeded {
      PlainEscapesToItself(text);
      return buf + text;
    }
    PlainEscapesToItself(text[..startPos]);
    result := buf + text[..startPos];
    i := startPos;
    while i < |text|
      invariant startPos <= i <= |text|
      invariant result == buf + Escape(text[..i])
    {
      var c := text[i];
      assert text[..i + 1] == text[..i] + [c];
      EscapeNext(buf, text[..i], c);
      if c == BACKSLASH {
        result := result + [BACKSLASH, BACKSLASH];
      } else if c == NEWLINE {
        result := result + [BACKSLASH, LOWER_N];
      } else if c == RETURN {
        result := result + [BACKSLASH, LOWER_R];
      } else if c == TAB {
        result := result + [BACKSLASH, LOWER_T];
      } else {
        result := result + [c];
      }
      i := i + 1;
    }
    assert text[..i] == text;
  }

  /** One Read of the underlying file: its data and a failure, if any; past the last one it gives io.EOF. */
  datatype FileRead = FileRead(data: Bytes, failure: Option<string>)

  predicate ChunkedBy(src: seq<FileRead>, size: nat) {
    forall i :: 0 <= i < |src| ==> |src[i].data| <= size
  }

  /** All bytes the source will still give. */
  function DataOf(src: seq<FileRead>): Bytes {
    if src == [] then [] else src[0].data + DataOf(src[1..])
  }

  class EscapingReader {
    var src: seq<FileRead>
    var buf: Bytes

    ghost predicate Valid()
      reads this
    {
      ChunkedBy(src, CHUNK_SIZE)
    }

    constructor (src: seq<FileRead>)
      requires ChunkedBy(src, CHUNK_SIZE)
      ensures Valid() && this.src == src && buf == []
    {
      this.src, buf := src, [];
    }

    /** Everything later reads will deliver. */
    ghost function Ahead(): Bytes
      reads this
    {
      buf + Escape(DataOf(src))
    }

    method CopyBufferTo(b: array<byte>) returns (n: nat)
      modifies this, b
      ensures src == old(src)
      ensures n == (if b.Length < |old(buf)| then b.Length else |old(buf)|)
      ensures b[..n] == old(buf)[..n] && buf == old(buf)[n..]
    {
      var end := b.Length;
      if end > |buf| {
        end := |buf|;
      }
      BlobStream.Copy(b, 0, buf[..end]);
      n := end;
      buf := buf[end..];
    }

    /** Reads chunks until the buffer comes close to `want` bytes, the source ends, or it fails. */
    method Gather(want: nat) returns (err: Option<Error>)
      requires Valid() && buf == []
      modifies this
      ensures Valid() && Ahead() == old(Ahead())
      ensures |buf| <= Max(want, CHUNK_SIZE) + CHUNK_SIZE
      ensures From(src, old(src))
      ensures err.None? ==> buf != [] || src == []
      ensures err.Some? ==> err.value.Failure? && Skipped(old(src), src, err.value.msg)
    {
      ghost var whole := Ahead();
      ghost var k := 0;
      err := None;
      while true
        invariant Valid() && Ahead() == whole
        invariant buf == [] || |buf| + CHUNK_SIZE <= want
        invariant k <= |old(src)| && src == old(src)[k..]
        decreases |src|
      {
        if src == [] {
          return;
        }
        var data, failure := src[0].data, src[0].failure;
        ghost var before, held := src, buf;
        src := src[1..];
        if |data| > 0 {
          buf := AppendEscapedText(buf, data);
          EscapeAtMostDoubles(data);
          AppendKeepsAhead(held, data, DataOf(src));
          if |buf| + CHUNK_SIZE > want {
            return;
          }
        } else {
          assert DataOf(before) == DataOf(src);
          if failure.Some? {
            err := Some(Failure(failure.value));
            assert old(src)[k] == before[0];
            return;
          }
        }
        k := k + 1;
      }
    }

    /**
     * Delivered bytes followed by what is ahead never change, whatever the
     * caller's buffer; io.EOF comes only when nothing is left; the buffer stays
     * within two chunks of what the caller asked for.
     */
    method Read(b: array<byte>) returns (n: nat, err: Option<Error>)
      requires Valid()
      modifies this, b
      ensures Valid()
      ensures n <= b.Length && b[..n] + Ahead() == old(Ahead())
      ensures n + |buf| <= Max(|old(buf)|, Max(b.Length, CHUNK_SIZE) + CHUNK_SIZE)
      ensures err.None? && b.Length > 0 ==> n > 0
      ensures err == Some(EOF) ==> n == 0 && Ahead() == []
      ensures From(src, old(src))
      ensures err.None? || err == Some(EOF) || Skipped(old(src), src, err.value.msg)
    {
      if |buf| > 0 {
        ghost var held := buf;
        n := CopyBufferTo(b);
        BlobStream.CutJoins(held, n, Escape(DataOf(src)));
        return n, None;
      }
      err := Gather(b.Length);
      if err.Some? {
        return 0, err;
      }
      if |buf| > 0 {
        ghost var held := buf;
        n := CopyBufferTo(b);
        BlobStream.CutJoins(held, n, Escape(DataOf(src)));
        return n, None;
      }
      return 0, Some(EOF);
    }
  }

  /** Everything still to be read was to be read before. */
  ghost predicate From(after: seq<FileRead>, before: seq<FileRead>) {
    forall x :: x in after ==> x in before
  }

  /** The source was read up to a read that failed without data. */
  ghost predicate Skipped(before: seq<FileRead>, after: seq<FileRead>, msg: string) {
    exists k :: 0 <= k < |before| && before[k] == FileRead([], Some(msg)) && after == before[k + 1..]
  }

  lemma AppendKeepsAhead(held: Bytes, data: Bytes, later: Bytes)
    ensures (held + Escape(data)) + Escape(later) == held + Escape(data + later)
  {
    EscapeAppend(data, later);
  }

  /** One read with a buffer of the given size. */
  method ReadOne(er: EscapingReader, size: nat) returns (got: Bytes, err: Option<Error>)
    requires er.Valid()
    modifies er
    ensures er.Valid() && got + er.Ahead() == old(er.Ahead())
    ensures err.None? && size > 0 ==> got != []
    ensures err == Some(EOF) ==> er.Ahead() == []
    ensures err.None? || err == Some(EOF) || FileRead([], Some(err.value.msg)) in old(er.src)
    ensures From(er.src, old(er.src))
  {
    var b := new byte[size];
    var n;
    n, err := er.Read(b);
    got := b[..n];
  }

  /**
   * A caller that reads with buffers of the given sizes until an error, over any
   * chunking of the input. Every read brings something, the output is always a
   * prefix of the escaped input, at io.EOF it is all of it and COPY reads it back
   * as the input, and any other error is that of a read that brought no data.
   */
  method EscapeStream(src: seq<FileRead>, sizes: seq<nat>) returns (out: Bytes, err: Option<Error>)
    requires ChunkedBy(src, CHUNK_SIZE)
    ensures out <= Escape(DataOf(src))
    ensures err == Some(EOF) ==> out == Escape(DataOf(src)) && Unescape(out) == Some(DataOf(src))
    ensures err.None? && (forall i :: 0 <= i < |sizes| ==> sizes[i] > 0) ==> |out| >= |sizes|
    ensures err.None? || err == Some(EOF) || FileRead([], Some(err.value.msg)) in src
  {
    var er := new EscapingReader(src);
    ghost var whole := Escape(DataOf(src));
    assert er.Ahead() == whole;
    ghost var positive := forall i :: 0 <= i < |sizes| ==> sizes[i] > 0;
    out, err := [], None;
    var j := 0;
    while j < |sizes| && err.None?
      invariant 0 <= j <= |sizes| && er.Valid() && fresh(er)
      invariant out + er.Ahead() == whole
      invariant From(er.src, src)
      invariant err == Some(EOF) ==> er.Ahead() == []
      invariant err.None? && positive ==> |out| >= j
      invariant err.None? || err == Some(EOF) || FileRead([], Some(err.value.msg)) in src
    {
      ghost var before := er.Ahead();
      var got;
      got, err := ReadOne(er, sizes[j]);
      BlobStream.Reassociate(out, got, er.Ahead(), before);
      out := out + got;
      j := j + 1;
    }
    RoundTrip(DataOf(src));
  }
}
