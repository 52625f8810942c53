/**
 * `IteratorStream` of `libearth.compat.clrxmlreader`: a read-only .NET
 * stream over an iterable of byte chunks.  Chunks are pulled from the
 * iterator on demand into `buffer`; `Read` copies the next unread bytes
 * into the caller's array and drops or trims the chunks it used up.
 */
module ClrXmlReader {
  import opened Wrappers

  type Byte = x: int | 0 <= x < 256
  type Bytes = seq<Byte>

  /** The chunks one after the other. */
  function Flatten(cs: seq<Bytes>): Bytes
  {
    if cs == [] then [] else cs[0] + Flatten(cs[1..])
  }

  /** `sum(len(chunk) for chunk in cs)`: the number of bytes of all the chunks. */
  function Sum(cs: seq<Bytes>): nat
  {
    |Flatten(cs)|
  }

  function Min(a: int, b: int): int
  {
    if a < b then a else b
  }

  lemma {:induction false} FlattenAppend(a: seq<Bytes>, b: seq<Bytes>)
    ensures Flatten(a + b) == Flatten(a) + Flatten(b)
    decreases |a|
  {
    if a == [] {
      assert a + b == b;
    } else {
      assert (a + b)[0] == a[0] && (a + b)[1..] == a[1..] + b;
      FlattenAppend(a[1..], b);
    }
  }

  /** The flattening of a prefix one chunk longer. */
  lemma PrefixStep(cs: seq<Bytes>, i: nat)
    requires i < |cs|
    ensures Flatten(cs[..i + 1]) == Flatten(cs[..i]) + cs[i]
  {
    assert cs[..i + 1] == cs[..i] + [cs[i]];
    FlattenAppend(cs[..i], [cs[i]]);
    assert Flatten([cs[i]]) == cs[i] + Flatten([]);
  }

  /** A prefix of the chunks flattens to a prefix of the bytes. */
  lemma PrefixSplit(cs: seq<Bytes>, i: nat)
    requires i <= |cs|
    ensures Flatten(cs) == Flatten(cs[..i]) + Flatten(cs[i..])
  {
    assert cs == cs[..i] + cs[i..];
    FlattenAppend(cs[..i], cs[i..]);
  }

  lemma PrefixBound(cs: seq<Bytes>, i: nat)
    requires i < |cs|
    ensures Sum(cs[..i]) + |cs[i]| == Sum(cs[..i + 1]) <= Sum(cs)
  {
    PrefixSplit(cs, i + 1);
    PrefixStep(cs, i);
  }

  /** A slice of the chunks one chunk longer. */
  lemma SliceStep(cs: seq<Bytes>, a: nat, b: nat)
    requires a <= b < |cs|
    ensures cs[a..b + 1] == cs[a..b] + [cs[b]]
    ensures Sum(cs[a..b + 1]) == Sum(cs[a..b]) + |cs[b]|
  {
    assert cs[a..b + 1] == cs[a..b] + [cs[b]];
    FlattenAppend(cs[a..b], [cs[b]]);
    assert Flatten([cs[b]]) == cs[b] + Flatten([]);
  }

  /** Where chunk `i` sits among the flattened bytes. */
  lemma ChunkSlice(cs: seq<Bytes>, i: nat, n: nat)
    requires i < |cs| && n <= |cs[i]|
    ensures Sum(cs[..i]) + n <= Sum(cs)
    ensures Flatten(cs)[..Sum(cs[..i]) + n] == Flatten(cs)[..Sum(cs[..i])] + cs[i][..n]
  {
    PrefixSplit(cs, i + 1);
    PrefixStep(cs, i);
  }

  /**
   * The chunks left after reading `count > 0` bytes: those wholly read are
   * dropped, a chunk read in part keeps its unread tail, and reading stops
   * at the chunk where the count runs out.
   */
  function Cut(cs: seq<Bytes>, count: nat): (r: seq<Bytes>)
    requires count > 0
    decreases |cs|
  {
    if cs == [] then []
    else if count < |cs[0]| then [cs[0][count..]] + cs[1..]
    else if count == |cs[0]| then cs[1..]
    else Cut(cs[1..], count - |cs[0]|)
  }

  /** The buffer after a `Read(…, count)`: unchanged when nothing was read. */
  function Remaining(cs: seq<Bytes>, count: nat): (r: seq<Bytes>)
  {
    if count == 0 || Sum(cs) == 0 then cs else Cut(cs, count)
  }

  /** The chunks left hold exactly the bytes after the ones read. */
  lemma {:induction false} CutFlatten(cs: seq<Bytes>, count: nat)
    requires count > 0
    ensures Flatten(Cut(cs, count)) == Flatten(cs)[Min(count, Sum(cs))..]
    decreases |cs|
  {
    if cs != [] {
      var c := cs[0];
      assert Flatten(cs) == c + Flatten(cs[1..]);
      if count < |c| {
        assert Flatten([c[count..]] + cs[1..]) == c[count..] + Flatten(cs[1..]) by {
          var t := [c[count..]] + cs[1..];
          assert t[0] == c[count..] && t[1..] == cs[1..];
        }
      } else if count > |c| {
        CutFlatten(cs[1..], count - |c|);
      }
    }
  }

  /** `Read` leaves in the buffer exactly the bytes it did not deliver. */
  lemma RemainingFlatten(cs: seq<Bytes>, count: nat)
    ensures Flatten(Remaining(cs, count)) == Flatten(cs)[Min(count, Sum(cs))..]
  {
    if count > 0 && Sum(cs) > 0 {
      CutFlatten(cs, count);
    }
  }

  /** Reading past chunks the count outlasts. */
  lemma {:induction false} CutSkip(cs: seq<Bytes>, count: nat, i: nat)
    requires i <= |cs| && Sum(cs[..i]) < count
    ensures Cut(cs, count) == Cut(cs[i..], count - Sum(cs[..i]))
    decreases i
  {
    if i > 0 {
      assert cs[..i][0] == cs[0] && cs[..i][1..] == cs[1..][..i - 1];
      CutSkip(cs[1..], count - |cs[0]|, i - 1);
      assert cs[1..][i - 1..] == cs[i..];
    }
  }

  /** A count beyond all the bytes drops every chunk. */
  lemma {:induction false} CutAll(cs: seq<Bytes>, count: nat)
    requires count > Sum(cs)
    ensures Cut(cs, count) == []
    decreases |cs|
  {
    if cs != [] {
      CutAll(cs[1..], count - |cs[0]|);
    }
  }

  /** The bytes `s` with `src` written over them from index `at` on, one byte after the other. */
  function Overwrite(s: seq<Byte>, at: nat, src: Bytes): (r: seq<Byte>)
    requires at + |src| <= |s|
    ensures |r| == |s|
    decreases |src|
  {
    if src == [] then s else Overwrite(s[at := src[0]], at + 1, src[1..])
  }

  /** The overwritten bytes are `src` in place, and the others are kept. */
  lemma {:induction false} OverwriteSlices(s: seq<Byte>, at: nat, src: Bytes)
    requires at + |src| <= |s|
    ensures Overwrite(s, at, src) == s[..at] + src + s[at + |src|..]
    decreases |src|
  {
    if src == [] {
      assert s[..at] + [] + s[at..] == s;
    } else {
      var t := s[at := src[0]];
      OverwriteSlices(t, at + 1, src[1..]);
      assert t[..at + 1] == s[..at] + [src[0]];
      assert t[at + 1 + |src[1..]|..] == s[at + |src|..];
      assert [src[0]] + src[1..] == src;
    }
  }

  /** Writing `p` and then `q` just after it is writing `p + q`. */
  lemma {:induction false} OverwriteAppend(s: seq<Byte>, at: nat, p: Bytes, q: Bytes)
    requires at + |p| + |q| <= |s|
    ensures Overwrite(Overwrite(s, at, p), at + |p|, q) == Overwrite(s, at, p + q)
    decreases |p|
  {
    if p == [] {
      assert p + q == q;
    } else {
      OverwriteAppend(s[at := p[0]], at + 1, p[1..], q);
      assert (p + q)[0] == p[0] && (p + q)[1..] == p[1..] + q;
    }
  }

  /** Writing one more byte at the end. */
  lemma OverwriteLast(s: seq<Byte>, at: nat, p: Bytes, x: Byte)
    requires at + |p| < |s|
    ensures Overwrite(s, at, p + [x]) == Overwrite(s, at, p)[at + |p| := x]
  {
    OverwriteAppend(s, at, p, [x]);
    var t := Overwrite(s, at, p);
    assert Overwrite(t, at + |p|, [x]) == Overwrite(t[at + |p| := x], at + |p| + 1, []);
  }

  /** `Array.CopyTo`: the chunk's bytes into `dst` from index `at` on. */
  method CopyTo(src: Bytes, dst: array<Byte>, at: nat)
    requires at + |src| <= dst.Length
    modifies dst
    ensures dst[..] == Overwrite(old(dst[..]), at, src)
  {
    var k := 0;
    while k < |src|
      invariant 0 <= k <= |src|
      invariant dst[..] == Overwrite(old(dst[..]), at, src[..k])
    {
      OverwriteLast(old(dst[..]), at, src[..k], src[k]);
      assert src[..k] + [src[k]] == src[..k + 1];
      dst[at + k] := src[k];
      k := k + 1;
    }
    assert src[..k] == src;
  }

  /**
   * The stream's bookkeeping: the iterator has yielded the first
   * `consumed` chunks and will yield `pending`; `length` counts the yielded
   * bytes, `position` the bytes read; the buffer holds exactly the yielded
   * bytes not read yet, and `buffer_length` counts them.
   */
  ghost predicate StreamState(iterable: seq<Bytes>, consumed: nat, pending: seq<Bytes>, length: nat,
                              buffer: seq<Bytes>, bufferLength: nat, position: nat)
  {
    && consumed <= |iterable| && pending == iterable[consumed..]
    && length == Sum(iterable[..consumed])
    && bufferLength == Sum(buffer)
    && position + bufferLength == length
    && Flatten(buffer) == Flatten(iterable[..consumed])[position..]
  }

  class IteratorStream {
    /** The chunks the iterable yields, in order. */
    const iterable: seq<Bytes>
    /** Whether the iterable is a `collections.Sequence` (so its length is summed without reading). */
    const isSequence: bool
    /** What the iterator has still to yield. */
    var pending: seq<Bytes>
    /** How many chunks the iterator has yielded. */
    ghost var consumed: nat
    var buffer: seq<Bytes>
    var bufferLength: nat
    var position: nat
    var length: nat
    var lengthCache: Option<nat>

    ghost predicate Valid()
      reads this
    {
      && StreamState(iterable, consumed, pending, length, buffer, bufferLength, position)
      && (lengthCache.Some? ==> lengthCache.value == Sum(iterable))
    }

    constructor (iterable: seq<Bytes>, isSequence: bool)
      ensures Valid()
      ensures this.iterable == iterable && this.isSequence == isSequence
      ensures pending == iterable && buffer == [] && position == 0 && length == 0 && lengthCache == None
    {
      this.iterable := iterable;
      this.isSequence := isSequence;
      pending := iterable;
      consumed := 0;
      buffer := [];
      bufferLength := 0;
      position := 0;
      length := 0;
      lengthCache := None;
      assert iterable[..0] == [];
    }

    /** `consume()`: moves the next chunk from the iterator into the buffer, or reports exhaustion. */
    method Consume() returns (more: bool)
      requires Valid()
      modifies this
      ensures Valid()
      ensures more <==> old(consumed) < |iterable|
      ensures more ==> && pending == old(pending)[1..] && buffer == old(buffer) + [iterable[old(consumed)]]
                       && consumed == old(consumed) + 1
                       && bufferLength == old(bufferLength) + |iterable[old(consumed)]|
                       && length == old(length) + |iterable[old(consumed)]|
      ensures !more ==> pending == old(pending) && buffer == old(buffer) && consumed == old(consumed)
                        && bufferLength == old(bufferLength) && length == old(length)
      ensures position == old(position) && lengthCache == old(lengthCache)
    {
      if pending == [] {
        return false;
      }
      var chunk := pending[0];
      ConsumeStep(iterable, consumed, pending, length, buffer, bufferLength, position);
      pending := pending[1..];
      buffer := buffer + [chunk];
      bufferLength := bufferLength + |chunk|;
      length := length + |chunk|;
      consumed := consumed + 1;
      return true;
    }

    /** `CanRead`. */
    function CanRead(): (r: bool)
      ensures r
    {
      true
    }

    /** `CanSeek`. */
    function CanSeek(): (r: bool)
      ensures !r
    {
      false
    }

    /** `CanWrite`. */
    function CanWrite(): (r: bool)
      ensures !r
    {
      false
    }

    /** `get_Position`: the number of bytes read so far. */
    function GetPosition(): (p: nat)
      requires Valid()
      reads this
      ensures p + bufferLength == length
    {
      position
    }

    /**
     * `get_Length`: the total number of bytes of all chunks, cached after
     * the first time; a sequence is summed, an iterator is read to its end.
     */
    method GetLength() returns (n: nat)
      requires Valid()
      modifies this
      ensures Valid()
      ensures n == Sum(iterable) && lengthCache == Some(n)
      ensures position == old(position)
      ensures old(lengthCache).Some? || isSequence ==> buffer == old(buffer) && pending == old(pending)
      ensures old(lengthCache).None? && !isSequence ==> pending == [] && buffer == old(buffer) + old(pending)
    {
      if lengthCache.Some? {
        return lengthCache.value;
      }
      if isSequence {
        n := Sum(iterable);
        lengthCache := Some(n);
        return;
      }
      Drain();
      lengthCache := Some(length);
      return length;
    }

    /** The loop of `get_Length`: consumes the iterator to its end. */
    method Drain()
      requires Valid()
      modifies this
      ensures Valid() && position == old(position) && lengthCache == old(lengthCache)
      ensures pending == [] && buffer == old(buffer) + old(pending) && length == Sum(iterable)
    {
      FillStart(iterable, consumed, buffer, bufferLength, 0);
      var more := true;
      while more
        invariant Valid() && position == old(position) && lengthCache == old(lengthCache)
        invariant Extended(iterable, old(consumed), old(buffer), old(bufferLength), consumed, buffer, bufferLength)
        invariant !more ==> pending == []
        decreases |iterable| - consumed + (if more then 1 else 0)
      {
        ghost var (c, b, l) := (consumed, buffer, bufferLength);
        more := Consume();
        if more {
          ExtendStep(iterable, old(consumed), old(buffer), old(bufferLength), c, b, l);
        }
      }
      Exhausted(iterable, consumed, pending, length, buffer, bufferLength, position, old(consumed));
    }

    /** The first loop of `Read`: pulls chunks until `count` bytes are buffered or the iterator runs out. */
    method Fill(count: nat)
      requires Valid()
      modifies this
      ensures Valid() && position == old(position) && lengthCache == old(lengthCache)
      ensures Filling(iterable, old(consumed), old(buffer), old(bufferLength), count, consumed, buffer, bufferLength)
      ensures bufferLength >= count || consumed == |iterable|
    {
      FillStart(iterable, consumed, buffer, bufferLength, count);
      while bufferLength < count
        invariant Valid() && position == old(position) && lengthCache == old(lengthCache)
        invariant Filling(iterable, old(consumed), old(buffer), old(bufferLength), count, consumed, buffer, bufferLength)
        decreases |iterable| - consumed
      {
        ghost var (c, b, n) := (consumed, buffer, bufferLength);
        var more := Consume();
        if !more {
          return;
        }
        FillStep(iterable, old(consumed), old(buffer), old(bufferLength), count, c, b, n);
      }
    }

    /**
     * `Read(buffer, offset, count)`: pulls chunks until `count` bytes are
     * buffered or the iterator is exhausted, copies up to `count` of the
     * next unread bytes into `buf` from `offset` on, and drops what it read
     * from the buffer.
     */
    method Read(buf: array<Byte>, offset: nat, count: nat) returns (totalRead: nat)
      requires Valid() && offset + count <= buf.Length
      modifies this, buf
      ensures Valid()
      ensures totalRead == Min(count, Sum(iterable) - old(position))
      ensures totalRead <= count && old(position) + totalRead <= |Flatten(iterable)|
      ensures buf[..] == Overwrite(old(buf[..]), offset, Flatten(iterable)[old(position)..old(position) + totalRead])
      ensures position == old(position) + totalRead
      ensures old(consumed) <= consumed <= |iterable|
      ensures consumed < |iterable| ==> old(bufferLength) + Sum(iterable[old(consumed)..consumed]) >= count
      ensures consumed > old(consumed) ==> old(bufferLength) + Sum(iterable[old(consumed)..consumed - 1]) < count
      ensures buffer == Remaining(old(buffer) + iterable[old(consumed)..consumed], count)
      ensures lengthCache == old(lengthCache)
    {
      Fill(count);
      totalRead := Take(buf, offset, count);
    }

    /** The rest of `Read`: copies the next bytes out and drops them from the buffer. */
    method Take(buf: array<Byte>, offset: nat, count: nat) returns (totalRead: nat)
      requires Valid() && offset + count <= buf.Length
      requires bufferLength >= count || consumed == |iterable|
      modifies this, buf
      ensures Valid()
      ensures totalRead == Min(count, Sum(iterable) - old(position))
      ensures totalRead <= count && old(position) + totalRead <= |Flatten(iterable)|
      ensures buf[..] == Overwrite(old(buf[..]), offset, Flatten(iterable)[old(position)..old(position) + totalRead])
      ensures position == old(position) + totalRead
      ensures buffer == Remaining(old(buffer), count)
      ensures consumed == old(consumed) && pending == old(pending) && lengthCache == old(lengthCache)
    {
      ghost var (fill, fillLength, start) := (buffer, bufferLength, position);
      var last, readBytes;
      totalRead, last, readBytes := CopyOut(buffer, buf, offset, count);
      if totalRead > 0 {
        var chunk := buffer[last];
        if |chunk| <= readBytes {
          buffer := buffer[last + 1..];
        } else {
          buffer := [chunk[readBytes..]] + buffer[last + 1..];
        }
        bufferLength := bufferLength - totalRead;
        position := position + totalRead;
      }
      AfterRead(iterable, consumed, pending, length, fill, fillLength, start, count, totalRead,
                buffer, bufferLength, position);
    }

    /** `Seek`: not supported. */
    method Seek(offset: int, origin: int) returns (r: Result<int>)
      ensures r == Err(InvalidOperation)
    {
      return Err(InvalidOperation);
    }

    /** `SetLength`: not supported. */
    method SetLength(value: int) returns (r: Result<()>)
      ensures r == Err(InvalidOperation)
    {
      return Err(InvalidOperation);
    }

    /** `Write`: not supported. */
    method Write(buf: array<Byte>, offset: int, count: int) returns (r: Result<()>)
      ensures r == Err(InvalidOperation)
    {
      return Err(InvalidOperation);
    }
  }

  /**
   * The second loop of `Read`: copies the first `count` bytes of `chunks`
   * (or all of them) into `buf` from `offset` on, and reports the index of
   * the last chunk it used and how much of it it read.
   */
  method CopyOut(chunks: seq<Bytes>, buf: array<Byte>, offset: nat, count: nat)
    returns (totalRead: nat, last: nat, readBytes: nat)
    requires offset + count <= buf.Length
    modifies buf
    ensures totalRead == Min(count, Sum(chunks))
    ensures buf[..] == Overwrite(old(buf[..]), offset, Flatten(chunks)[..totalRead])
    ensures totalRead > 0 ==> TrimShape(chunks, count, last, readBytes)
    ensures totalRead == 0 ==> Remaining(chunks, count) == chunks
  {
    totalRead, last, readBytes := 0, 0, 0;
    var left: int := count;
    var i := 0;
    assert buf[..] == Overwrite(old(buf[..]), offset, Flatten(chunks)[..0]) by {
      assert Flatten(chunks)[..0] == [];
    }
    while i < |chunks|
      invariant Copying(chunks, count, i, totalRead, last, readBytes) && left == count - totalRead
      invariant buf[..] == Overwrite(old(buf[..]), offset, Flatten(chunks)[..totalRead])
    {
      var chunk := chunks[i];
      CopyAdvance(chunks, count, i, totalRead, last, readBytes, Min(left, |chunk|));
      last := i;
      readBytes := Min(left, |chunk|);
      ghost var done := Flatten(chunks)[..totalRead];
      var piece := chunk[..readBytes];
      OverwriteAppend(old(buf[..]), offset, done, piece);
      CopyTo(piece, buf, offset + totalRead);
      left := left - readBytes;
      totalRead := totalRead + readBytes;
      if left == 0 {
        return;
      }
      i := i + 1;
    }
    CopyEnd(chunks, count, totalRead, last, readBytes);
  }

  /** Where the copy loop stands before chunk `i`: every earlier chunk was copied whole, `count` not yet reached. */
  ghost predicate Copying(chunks: seq<Bytes>, count: nat, i: nat, totalRead: nat, last: nat, readBytes: nat)
  {
    && i <= |chunks|
    && totalRead == Sum(chunks[..i]) && totalRead <= Sum(chunks)
    && (i > 0 ==> totalRead < count && last == i - 1 && readBytes == |chunks[last]|)
  }

  /** How `Read` trims the buffer (after the last chunk it used) yields `Remaining`. */
  ghost predicate TrimShape(chunks: seq<Bytes>, count: nat, last: nat, readBytes: nat)
  {
    && last < |chunks|
    && Remaining(chunks, count) == if |chunks[last]| <= readBytes then chunks[last + 1..]
                                   else [chunks[last][readBytes..]] + chunks[last + 1..]
  }

  /** One step of the copy loop: the bytes of chunk `i` follow those already copied. */
  lemma CopyAdvance(chunks: seq<Bytes>, count: nat, i: nat, totalRead: nat, last: nat, readBytes: nat, r: nat)
    requires Copying(chunks, count, i, totalRead, last, readBytes)
    requires i < |chunks| && r == Min(count - totalRead, |chunks[i]|)
    ensures totalRead + r <= Sum(chunks)
    ensures Flatten(chunks)[..totalRead + r] == Flatten(chunks)[..totalRead] + chunks[i][..r]
    ensures totalRead + r < count ==> Copying(chunks, count, i + 1, totalRead + r, i, r)
    ensures totalRead + r == count ==> count == Min(count, Sum(chunks))
    ensures totalRead + r == count > 0 ==> TrimShape(chunks, count, i, r)
  {
    ChunkSlice(chunks, i, r);
    PrefixStep(chunks, i);
    PrefixBound(chunks, i);
    if totalRead + r == count > 0 {
      Trimmed(chunks, count, i, i, r, true);
    }
  }

  /** The copy loop ran out of chunks before `count` bytes. */
  lemma CopyEnd(chunks: seq<Bytes>, count: nat, totalRead: nat, last: nat, readBytes: nat)
    requires Copying(chunks, count, |chunks|, totalRead, last, readBytes)
    ensures totalRead == Min(count, Sum(chunks))
    ensures totalRead > 0 ==> TrimShape(chunks, count, last, readBytes)
  {
    assert chunks[..|chunks|] == chunks;
    if totalRead > 0 {
      Trimmed(chunks, count, |chunks|, last, readBytes, false);
    }
  }

  /** The trimming after the copy loop leaves `Remaining`. */
  lemma Trimmed(cs: seq<Bytes>, count: nat, i: nat, last: nat, readBytes: nat, broke: bool)
    requires 0 < Min(count, Sum(cs))
    requires broke ==> last == i && i < |cs| && Sum(cs[..i]) < count && readBytes == count - Sum(cs[..i])
                       && readBytes <= |cs[i]|
    requires !broke ==> i == |cs| && cs[..i] == cs && Sum(cs) < count && last == |cs| - 1
                        && readBytes == |cs[last]|
    ensures last < |cs|
    ensures Remaining(cs, count) == if |cs[last]| <= readBytes then cs[last + 1..] else [cs[last][readBytes..]] + cs[last + 1..]
  {
    if broke {
      CutSkip(cs, count, i);
      assert cs[i..][0] == cs[i] && cs[i..][1..] == cs[i + 1..];
    } else {
      CutAll(cs, count);
      assert cs[last + 1..] == [];
    }
  }

  /** Moving the next chunk into the buffer keeps the bookkeeping. */
  lemma ConsumeStep(iterable: seq<Bytes>, consumed: nat, pending: seq<Bytes>, length: nat,
                    buffer: seq<Bytes>, bufferLength: nat, position: nat)
    requires StreamState(iterable, consumed, pending, length, buffer, bufferLength, position)
    requires pending != []
    ensures StreamState(iterable, consumed + 1, pending[1..], length + |pending[0]|, buffer + [pending[0]],
                        bufferLength + |pending[0]|, position)
  {
    var c := iterable[consumed];
    assert c == pending[0] && pending[1..] == iterable[consumed + 1..];
    PrefixStep(iterable, consumed);
    FlattenAppend(buffer, [c]);
    assert Flatten([c]) == c + Flatten([]);
  }

  /**
   * Where the loops of `get_Length` and `Read` stand: the chunks yielded
   * since `from` were appended to the buffer as it was (`start`, holding
   * `startLength` bytes).
   */
  ghost predicate Extended(iterable: seq<Bytes>, from: nat, start: seq<Bytes>, startLength: nat,
                           consumed: nat, buffer: seq<Bytes>, bufferLength: nat)
  {
    && from <= consumed <= |iterable|
    && buffer == start + iterable[from..consumed]
    && bufferLength == startLength + Sum(iterable[from..consumed])
  }

  /** `Read` pulls no chunk it does not need: every chunk but the last came while fewer than `count` bytes were buffered. */
  ghost predicate Filling(iterable: seq<Bytes>, from: nat, start: seq<Bytes>, startLength: nat, count: nat,
                          consumed: nat, buffer: seq<Bytes>, bufferLength: nat)
  {
    && Extended(iterable, from, start, startLength, consumed, buffer, bufferLength)
    && (consumed > from ==> startLength + Sum(iterable[from..consumed - 1]) < count)
  }

  lemma FillStart(iterable: seq<Bytes>, consumed: nat, buffer: seq<Bytes>, bufferLength: nat, count: nat)
    requires consumed <= |iterable|
    ensures Filling(iterable, consumed, buffer, bufferLength, count, consumed, buffer, bufferLength)
  {
    assert iterable[consumed..consumed] == [];
    assert buffer + [] == buffer;
  }

  /** Appending the next chunk. */
  lemma ExtendStep(iterable: seq<Bytes>, from: nat, start: seq<Bytes>, startLength: nat,
                   consumed: nat, buffer: seq<Bytes>, bufferLength: nat)
    requires Extended(iterable, from, start, startLength, consumed, buffer, bufferLength)
    requires consumed < |iterable|
    ensures Extended(iterable, from, start, startLength, consumed + 1, buffer + [iterable[consumed]],
                     bufferLength + |iterable[consumed]|)
  {
    SliceStep(iterable, from, consumed);
  }

  /** Pulling one more chunk while fewer than `count` bytes are buffered. */
  lemma FillStep(iterable: seq<Bytes>, from: nat, start: seq<Bytes>, startLength: nat, count: nat,
                 consumed: nat, buffer: seq<Bytes>, bufferLength: nat)
    requires Filling(iterable, from, start, startLength, count, consumed, buffer, bufferLength)
    requires consumed < |iterable| && bufferLength < count
    ensures Filling(iterable, from, start, startLength, count, consumed + 1, buffer + [iterable[consumed]],
                    bufferLength + |iterable[consumed]|)
  {
    ExtendStep(iterable, from, start, startLength, consumed, buffer, bufferLength);
    assert iterable[from..consumed + 1][..consumed - from] == iterable[from..consumed];
  }

  /** Once the iterator is exhausted, every chunk has been yielded. */
  lemma Exhausted(iterable: seq<Bytes>, consumed: nat, pending: seq<Bytes>, length: nat,
                  buffer: seq<Bytes>, bufferLength: nat, position: nat, from: nat)
    requires StreamState(iterable, consumed, pending, length, buffer, bufferLength, position)
    requires pending == [] && from <= consumed
    ensures consumed == |iterable| && length == Sum(iterable) && iterable[from..consumed] == iterable[from..]
  {
    assert iterable[..consumed] == iterable;
  }

  /**
   * After the copy loop and the trimming: the bookkeeping holds with the
   * read bytes gone, and they were the next bytes of the whole stream.
   */
  lemma AfterRead(iterable: seq<Bytes>, consumed: nat, pending: seq<Bytes>, length: nat,
                  fill: seq<Bytes>, fillLength: nat, start: nat, count: nat, totalRead: nat,
                  buffer: seq<Bytes>, bufferLength: nat, position: nat)
    requires StreamState(iterable, consumed, pending, length, fill, fillLength, start)
    requires fillLength >= count || consumed == |iterable|
    requires totalRead == Min(count, Sum(fill))
    requires buffer == Remaining(fill, count) && bufferLength + totalRead == fillLength && position == start + totalRead
    ensures StreamState(iterable, consumed, pending, length, buffer, bufferLength, position)
    ensures totalRead == Min(count, Sum(iterable) - start)
    ensures position <= |Flatten(iterable)|
    ensures Flatten(fill)[..totalRead] == Flatten(iterable)[start..position]
  {
    RemainingFlatten(fill, count);
    PrefixSplit(iterable, consumed);
  }
}
