/** Buffers that are wiped when they move or are cleared, over Go slices, and the key that is trimmed into one. */
module Sensitive {
  import opened Basics

  // ---- Slices ----

  /** A window on an array: `len` bytes from `off`, and room for `cap`. */
  datatype Slice = Slice(data: array<byte>, off: nat, len: nat, cap: nat) {
    ghost predicate Valid() {
      len <= cap && off + cap <= data.Length
    }

    function Bytes(): (r: seq<byte>)
      requires Valid()
      reads data
      ensures |r| == len
    {
      data[off..off + len]
    }

    /** The slice is all zeros. */
    predicate Wiped()
      requires Valid()
      reads data
    {
      forall i :: off <= i < off + len ==> data[i] == 0
    }

    /** No byte of this slice lies in `data[lo..hi]`. */
    predicate Misses(other: array<byte>, lo: int, hi: int) {
      data != other || off + len <= lo || hi <= off
    }
  }

  /** The bytes of `a` are as they were, except in `lo..hi`. */
  twostate predicate OnlyWithin(a: array<byte>, lo: int, hi: int)
    reads a
  {
    forall i :: 0 <= i < a.Length && !(lo <= i < hi) ==> a[i] == old(a[i])
  }

  /** The built-in `append`: in place when there is room, otherwise a copy with any larger capacity. */
  method GoAppend(s: Slice, b: Slice) returns (r: Slice)
    requires s.Valid() && b.Valid()
    modifies s.data
    ensures r.Valid() && r.Bytes() == old(s.Bytes()) + old(b.Bytes())
    ensures s.len + b.len <= s.cap ==>
              r == s.(len := s.len + b.len) && OnlyWithin(s.data, s.off + s.len, s.off + s.len + b.len)
    ensures s.len + b.len > s.cap ==> fresh(r.data) && r.off == 0 && s.data[..] == old(s.data[..])
  {
    var held, added := s.Bytes(), b.Bytes();
    if s.len + b.len <= s.cap {
      var at := s.off + s.len;
      for i := 0 to b.len
        invariant s.data[at..at + i] == added[..i]
        invariant OnlyWithin(s.data, at, at + i)
      {
        s.data[at + i] := added[i];
      }
      r := s.(len := s.len + b.len);
      assert s.data[s.off..at] == held && added[..b.len] == added;
      assert r.Bytes() == s.data[s.off..at] + s.data[at..at + b.len];
    } else {
      var all := held + added;
      var cap: nat :| cap >= |all|;
      var data := new byte[cap](i => if 0 <= i < |all| then all[i] else 0);
      r := Slice(data, 0, |all|, cap);
    }
  }

  // ---- The buffer ----

  class Sensitive {
    var buf: Slice
    ghost var moved: seq<Slice>  // every place the buffer has moved away from, as long as it was then

    ghost predicate Valid()
      reads this, buf.data, set k | 0 <= k < |moved| :: moved[k].data
    {
      && buf.Valid()
      && forall k :: 0 <= k < |moved| ==> moved[k].Valid() && moved[k].data != buf.data && moved[k].Wiped()
    }

    constructor (buf: Slice)
      requires buf.Valid()
      ensures Valid() && this.buf == buf && moved == []
    {
      this.buf, this.moved := buf, [];
    }

    /** Appends in place, or moves and wipes the place it leaves. The source indexes the first byte, so there
        must be one. */
    method Write(b: Slice)
      requires Valid() && b.Valid() && buf.len > 0
      modifies this, buf.data
      ensures Valid() && buf.len > 0
      ensures buf.Bytes() == old(buf.Bytes()) + old(b.Bytes())
      ensures if old(buf).len + b.len <= old(buf).cap
              then buf == old(buf).(len := buf.len) && moved == old(moved)
                   && OnlyWithin(buf.data, buf.off + old(buf).len, buf.off + buf.len)
              else fresh(buf.data) && moved == old(moved) + [old(buf)]
                   && OnlyWithin(old(buf).data, old(buf).off, old(buf).off + old(buf).len)
    {
      var newBuf := GoAppend(buf, b);
      if newBuf.data != buf.data || newBuf.off != buf.off {
        Zero(buf);
        moved := moved + [buf];
        buf := newBuf;
        return;
      }
      buf := newBuf;
    }

    /** An appended buffer that does not touch the bytes written or left behind is unchanged. */
    method Append(other: Sensitive)
      requires Valid() && other.Valid() && buf.len > 0
      modifies this, buf.data
      ensures Valid() && buf.len > 0
      ensures buf.Bytes() == old(buf.Bytes()) + old(other.buf.Bytes())
      ensures other != this && old(other.buf).Misses(old(buf).data, old(buf).off, old(buf).off + old(buf).cap)
              ==> other.buf == old(other.buf) && other.buf.Bytes() == old(other.buf.Bytes())
      ensures forall k :: 0 <= k < |old(moved)| ==> k < |moved| && moved[k] == old(moved[k])
    {
      Write(other.buf);
    }

    method Clear()
      requires Valid()
      modifies buf.data
      ensures Valid() && buf.Wiped()
      ensures OnlyWithin(buf.data, buf.off, buf.off + buf.len)
    {
      Zero(buf);
    }
  }

  method Zero(s: Slice)
    requires s.Valid()
    modifies s.data
    ensures s.Wiped() && OnlyWithin(s.data, s.off, s.off + s.len)
  {
    for i := 0 to s.len
      invariant forall j :: s.off <= j < s.off + i ==> s.data[j] == 0
      invariant OnlyWithin(s.data, s.off, s.off + i)
    {
      s.data[s.off + i] := 0;
    }
  }

  // ---- The trimmed key ----

  predicate IsValidChar(b: byte) {
    b != 10 && b != 32 && b != 0
  }

  predicate AllInvalid(s: seq<byte>, lo: int, hi: int)
    requires 0 <= lo <= hi <= |s|
  {
    forall i :: lo <= i < hi ==> !IsValidChar(s[i])
  }

  /** `s[a..b]` is the first run of valid bytes in `s[lo..hi]` that cannot be made longer. */
  predicate IsFirstRun(s: seq<byte>, lo: int, hi: int, a: int, b: int) {
    && 0 <= lo <= a < b <= hi <= |s|
    && AllInvalid(s, lo, a)
    && (forall i :: a <= i < b ==> IsValidChar(s[i]))
    && (b < hi ==> !IsValidChar(s[b]))
  }

  /** There is such a run exactly when there is a valid byte, and then only one. */
  lemma {:induction false} FirstRunExists(s: seq<byte>, lo: int, hi: int) returns (a: int, b: int)
    requires 0 <= lo <= hi <= |s|
    ensures IsFirstRun(s, lo, hi, a, b) <==> !AllInvalid(s, lo, hi)
    ensures forall a', b' :: IsFirstRun(s, lo, hi, a', b') ==> a' == a && b' == b
    decreases hi
  {
    a, b := hi, hi;
    if lo < hi {
      a, b := FirstRunExists(s, lo, hi - 1);
      if !AllInvalid(s, lo, hi - 1) {
        if b == hi - 1 && IsValidChar(s[b]) {
          b := hi;
        }
      } else if IsValidChar(s[hi - 1]) {
        a, b := hi - 1, hi;
      }
    }
    forall a', b' | IsFirstRun(s, lo, hi, a', b') ensures a' == a && b' == b {
      assert IsValidChar(s[a']);
      FirstRunIsUnique(s, lo, hi, a, b, a', b');
    }
  }

  predicate IsPadding(s: seq<byte>) {
    forall i :: 0 <= i < |s| ==> s[i] == 10 || s[i] == 32 || s[i] == 0
  }

  predicate IsKey(s: seq<byte>) {
    s != [] && forall i :: 0 <= i < |s| ==> s[i] != 10 && s[i] != 32 && s[i] != 0
  }

  /** Line feeds, blanks and zero bytes before a key are passed over, and the first one after it ends it,
      whatever comes then. */
  lemma KeyIsFirstRun(pre: seq<byte>, key: seq<byte>, post: seq<byte>)
    requires IsPadding(pre) && IsKey(key) && (post == [] || IsPadding(post[..1]))
    ensures IsFirstRun(pre + key + post, 0, |pre + key + post|, |pre|, |pre + key|)
  {
    var s := pre + key + post;
    assert forall i :: 0 <= i < |pre| ==> s[i] == pre[i];
    assert forall i :: |pre| <= i < |pre| + |key| ==> s[i] == key[i - |pre|];
    assert post != [] ==> s[|pre| + |key|] == post[..1][0];
  }

  /** A key without any other byte has no run. */
  lemma PaddingHasNoRun(pad: seq<byte>)
    requires IsPadding(pad)
    ensures AllInvalid(pad, 0, |pad|)
  {
  }

  lemma FirstRunIsUnique(s: seq<byte>, lo: int, hi: int, a: int, b: int, a': int, b': int)
    requires IsFirstRun(s, lo, hi, a, b) && IsFirstRun(s, lo, hi, a', b')
    ensures a == a' && b == b'
  {
    assert IsValidChar(s[a]) && IsValidChar(s[a']);
    assert b < hi ==> !IsValidChar(s[b]);
    assert b' < hi ==> !IsValidChar(s[b']);
  }

  /** Keeps the first run of valid bytes where it is and wipes every other byte of the key. */
  method TrimKey(key: Slice) returns (r: Option<Sensitive>)
    requires key.Valid()
    modifies key.data
    ensures OnlyWithin(key.data, key.off, key.off + key.len)
    ensures r.None? <==> AllInvalid(old(key.data[..]), key.off, key.off + key.len)
    ensures r.None? ==> key.Wiped()
    ensures r.Some? ==>
              var buf := r.value.buf;
              && fresh(r.value) && r.value.Valid() && r.value.moved == []
              && buf.data == key.data && buf.off + buf.cap == key.off + key.cap
              && IsFirstRun(old(key.data[..]), key.off, key.off + key.len, buf.off, buf.off + buf.len)
              && (forall i :: buf.off <= i < buf.off + buf.len ==> key.data[i] == old(key.data[i]))
              && (forall i :: key.off <= i < key.off + key.len && !(buf.off <= i < buf.off + buf.len)
                              ==> key.data[i] == 0)
  {
    var data, end := key.data, key.off + key.len;
    ghost var was := data[..];
    var start := key.off;
    while start < end && !IsValidChar(data[start])
      invariant key.off <= start <= end && AllInvalid(was, key.off, start)
      invariant forall i :: key.off <= i < start ==> data[i] == 0
      invariant OnlyWithin(data, key.off, start)
    {
      data[start] := 0;
      start := start + 1;
    }
    if start >= end {
      return None;
    }
    var final := start + 1;
    while final < end && IsValidChar(data[final])
      invariant start < final <= end
      invariant forall i :: start <= i < final ==> IsValidChar(was[i])
    {
      final := final + 1;
    }
    Zero(Slice(data, final, end - final, end - final));
    var trimmed := new Sensitive(Slice(data, start, final - start, key.off + key.cap - start));
    r := Some(trimmed);
  }
}
