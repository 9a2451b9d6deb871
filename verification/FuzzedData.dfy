/**
 FuzzedDataProvider: byte strings are taken from the front of the input, integers
 from its end. The ghost fields record what was taken, so that every method can be
 shown to conserve the input.
 */
module FuzzedData {
  import opened Words

  // ----- Integral types and their wrapping conversions -----

  /** An integral type of 1, 2, 4 or 8 bytes. */
  datatype Integral = Integral(bytes: nat, signed: bool) {
    predicate Valid() { bytes in {1, 2, 4, 8} }

    function Size(): nat
      requires Valid()
    {
      Pow256(bytes)
    }

    function Min(): int
      requires Valid()
    {
      if signed then -(Size() / 2) else 0
    }

    function Max(): int
      requires Valid()
    {
      if signed then Size() / 2 - 1 else Size() - 1
    }

    predicate Holds(x: int)
      requires Valid()
    {
      Min() <= x <= Max()
    }

    /** static_cast from uint64_t. */
    function Cast(u: u64): int
      requires Valid()
    {
      var low := u % Size();
      if signed && low >= Size() / 2 then low - Size() else low
    }
  }

  /** static_cast to uint64_t. */
  function ToU64(x: int): u64 { x % TWO64 }

  /** Going through uint64_t and back loses nothing. */
  lemma CastBack(t: Integral, x: int)
    requires t.Valid() && t.Holds(x)
    ensures t.Cast(ToU64(x)) == x
  {
    Sizes();
    LowPart(x, t.Size(), TWO64 / t.Size());
  }

  /** The low part of a wrapped number is the number, modulo a size that divides 2^64. */
  lemma LowPart(x: int, size: int, copies: int)
    requires size > 0 && copies > 0 && size * copies == TWO64 && -size <= x < size && -TWO64 <= x
    ensures ToU64(x) % size == if x < 0 then x + size else x
  {
    if x >= 0 {
      QuotientUnique(x, TWO64, 0, x);
      QuotientUnique(x, size, 0, x);
    } else {
      assert ToU64(x) == x + TWO64;
      assert x + TWO64 == (copies - 1) * size + (x + size);
      QuotientUnique(x + TWO64, size, copies - 1, x + size);
    }
  }

  /** The subtraction in uint64_t gives the true width of the range. */
  lemma RangeIsDifference(t: Integral, min: int, max: int)
    requires t.Valid() && t.Holds(min) && t.Holds(max) && min <= max
    ensures (ToU64(max) - ToU64(min)) % TWO64 == max - min < Pow256(t.bytes)
  {
    Sizes();
    DifferenceWraps(min, max);
  }

  lemma DifferenceWraps(min: int, max: int)
    requires -TWO64 < min <= max < TWO64 && max - min < TWO64
    ensures (ToU64(max) - ToU64(min)) % TWO64 == max - min
  {
  }

  // ----- Bytes of a number -----

  /** The number spelled by bytes, most significant first. */
  function BigEndian(bytes: seq<u8>): nat {
    if bytes == [] then 0 else BigEndian(bytes[..|bytes| - 1]) * 256 + bytes[|bytes| - 1]
  }

  lemma BigEndianSnoc(bytes: seq<u8>, b: u8)
    ensures BigEndian(bytes + [b]) == BigEndian(bytes) * 256 + b
  {
    assert (bytes + [b])[..|bytes|] == bytes;
  }

  /** The number spelled by bytes, least significant first. */
  function LittleEndian(bytes: seq<u8>): nat {
    if bytes == [] then 0 else bytes[0] + 256 * LittleEndian(bytes[1..])
  }

  /** Bytes taken from the end come out as the little-endian number that stands there. */
  lemma {:induction false} TakenIsTail(taken: seq<u8>, tail: seq<u8>)
    requires |taken| == |tail| && forall i :: 0 <= i < |tail| ==> taken[i] == tail[|tail| - 1 - i]
    ensures BigEndian(taken) == LittleEndian(tail)
    decreases |tail|
  {
    if tail != [] {
      TakenIsTail(taken[..|taken| - 1], tail[1..]);
    }
  }

  lemma {:induction false} BigEndianBound(bytes: seq<u8>)
    ensures BigEndian(bytes) < Pow256(|bytes|)
  {
    if bytes != [] {
      BigEndianBound(bytes[..|bytes| - 1]);
    }
  }

  /** How many bytes a range takes. */
  function Needed(range: nat): nat {
    if range == 0 then 0 else 1 + Needed(range / 256)
  }

  /** ... which is the least k with range < 256^k. */
  lemma {:induction false} NeededIsLeast(range: nat, k: nat)
    ensures range < Pow256(k) <==> Needed(range) <= k
  {
    if range > 0 && k > 0 {
      NeededIsLeast(range / 256, k - 1);
      assert range < 256 * Pow256(k - 1) <==> range / 256 < Pow256(k - 1);
    }
  }

  function ToBytes(n: nat, k: nat): (bytes: seq<u8>)
    ensures |bytes| == k
  {
    if k == 0 then [] else ToBytes(n / 256, k - 1) + [n % 256]
  }

  lemma {:induction false} BytesRoundTrip(n: nat, k: nat)
    requires n < Pow256(k)
    ensures BigEndian(ToBytes(n, k)) == n
  {
    if k > 0 {
      assert ToBytes(n, k)[..k - 1] == ToBytes(n / 256, k - 1);
      BytesRoundTrip(n / 256, k - 1);
    }
  }

  /** What the bytes taken for a range come out as. */
  function InRange(taken: seq<u8>, min: int, max: int): (r: int)
    requires min <= max
    ensures min <= r <= max
  {
    min + BigEndian(taken) % (max - min + 1)
  }

  /** Every value of the range is produced by some bytes of the full length. */
  lemma RangeIsOnto(min: int, max: int, v: int) returns (taken: seq<u8>)
    requires min <= v <= max
    ensures |taken| == Needed(max - min) && InRange(taken, min, max) == v
  {
    var k := Needed(max - min);
    NeededIsLeast(max - min, k);
    taken := ToBytes(v - min, k);
    BytesRoundTrip(v - min, k);
    QuotientUnique(v - min, max - min + 1, 0, v - min);
  }

  // ----- Strings with an escape -----

  const BACKSLASH: u8 := 92

  /** The next character of a window, or the end mark, and the bytes it takes up. */
  function NextChar(window: seq<u8>): (r: (Option<u8>, nat))
    requires window != []
    ensures 1 <= r.1 <= |window|
  {
    if window[0] == BACKSLASH && |window| > 1 then
      if window[1] == BACKSLASH then (Some(BACKSLASH), 2) else (None, 2)
    else (Some(window[0]), 1)
  }

  /** ConsumeRandomLengthString on a window: the string, and the bytes it used up. */
  function Unescape(window: seq<u8>, limit: nat): (r: (seq<u8>, nat))
    ensures r.1 <= |window|
    decreases limit
  {
    if limit == 0 || window == [] then ([], 0)
    else
      var (c, n) := NextChar(window);
      if c.None? then ([], n)
      else var (s, m) := Unescape(window[n..], limit - 1);
           ([c.value] + s, n + m)
  }

  /** Double the backslashes. */
  function Escape(s: seq<u8>): seq<u8> {
    if s == [] then []
    else (if s[0] == BACKSLASH then [BACKSLASH, BACKSLASH] else [s[0]]) + Escape(s[1..])
  }

  /** Any string can be encoded: with room for the end mark, decoding gives it back and
      uses up exactly the encoding. */
  lemma {:induction false} EscapeRoundTrip(s: seq<u8>, end: u8, rest: seq<u8>, limit: nat)
    requires end != BACKSLASH && limit > |s|
    ensures Unescape(Escape(s) + [BACKSLASH, end] + rest, limit) == (s, |Escape(s)| + 2)
    decreases |s|
  {
    var window := Escape(s) + [BACKSLASH, end] + rest;
    if s != [] {
      var head := if s[0] == BACKSLASH then [BACKSLASH, BACKSLASH] else [s[0]];
      assert window[|head|..] == Escape(s[1..]) + [BACKSLASH, end] + rest;
      EscapeRoundTrip(s[1..], end, rest, limit - 1);
      assert [s[0]] + s[1..] == s;
      if s[0] != BACKSLASH {
        assert window[0] == s[0];
      } else {
        assert window[0] == BACKSLASH && window[1] == BACKSLASH;
      }
    }
  }

  /** The bytes used up are the encoding of the string, which is as long as asked for or takes
      all bytes; or they have the end mark behind it; or they are all bytes, and the last of
      them is a single backslash. */
  predicate Encodes(window: seq<u8>, limit: nat, s: seq<u8>, n: nat) {
    && |s| <= limit && n <= |window|
    && (|| (window[..n] == Escape(s) && (|s| == limit || n == |window|))
        || (n >= 2 && window[..n - 2] == Escape(s) && |s| < limit
            && window[n - 2] == BACKSLASH && window[n - 1] != BACKSLASH)
        || (n == |window| && window + [BACKSLASH] == Escape(s)))
  }

  /** Whatever is decoded was encoded like that. */
  lemma {:induction false} UnescapeMeans(window: seq<u8>, limit: nat)
    ensures Encodes(window, limit, Unescape(window, limit).0, Unescape(window, limit).1)
    decreases limit
  {
    if limit > 0 && window != [] && NextChar(window).0.Some? {
      var (c, k) := NextChar(window);
      UnescapeMeans(window[k..], limit - 1);
      var (t, m) := Unescape(window[k..], limit - 1);
      OneCharMore(window, limit);
      if window != [BACKSLASH] {
        OneMoreEncoded(window, k, limit, c.value, t, m);
      }
    }
  }

  lemma OneMoreEncoded(window: seq<u8>, k: nat, limit: nat, c: u8, t: seq<u8>, m: nat)
    requires 0 < k <= |window| && limit > 0 && Encodes(window[k..], limit - 1, t, m)
    requires window[..k] + Escape(t) == Escape([c] + t)
    ensures Encodes(window, limit, [c] + t, k + m)
  {
    hide Escape;
    var rest := window[k..];
    if rest[..m] == Escape(t) {
      assert window[..k + m] == window[..k] + rest[..m];
    }
    if m >= 2 && rest[..m - 2] == Escape(t) {
      assert window[..k + m - 2] == window[..k] + rest[..m - 2];
    }
    if m == |rest| && rest + [BACKSLASH] == Escape(t) {
      assert window + [BACKSLASH] == window[..k] + (rest + [BACKSLASH]);
    }
  }

  lemma OneCharMore(window: seq<u8>, limit: nat)
    requires limit > 0 && window != [] && NextChar(window).0.Some?
    ensures var (c, k) := NextChar(window);
      var (t, m) := Unescape(window[k..], limit - 1);
      && Unescape(window, limit) == ([c.value] + t, k + m)
      && (window[..k] + Escape(t) == Escape([c.value] + t) || (window == [BACKSLASH] && t == []))
  {
    var (c, k) := NextChar(window);
    var (t, m) := Unescape(window[k..], limit - 1);
    assert ([c.value] + t)[1..] == t;
    if window[0] == BACKSLASH && |window| == 1 {
      assert window[1..] == [];
    }
  }

  // ----- The provider -----

  function Reverse(s: seq<u8>): (r: seq<u8>)
    ensures |r| == |s| && forall i :: 0 <= i < |s| ==> r[i] == s[|s| - 1 - i]
  {
    if s == [] then [] else [s[|s| - 1]] + Reverse(s[..|s| - 1])
  }

  class Provider {
    const data: seq<u8>
    var ptr: nat
    var remaining: nat
    /** What was taken from the front, and from the back, in the order of taking. */
    ghost var front: seq<u8>
    ghost var back: seq<u8>

    ghost predicate Valid()
      reads this
    {
      && ptr + remaining <= |data| && front == data[..ptr]
      && |back| == |data| - ptr - remaining
      && forall i :: 0 <= i < |back| ==> back[i] == data[|data| - 1 - i]
    }

    ghost function Window(): seq<u8>
      requires ptr + remaining <= |data|
      reads this
    {
      data[ptr..ptr + remaining]
    }

    constructor (data: seq<u8>)
      ensures Valid() && Window() == data && front == [] && back == []
    {
      this.data, ptr, remaining := data, 0, |data|;
      front, back := [], [];
    }

    /** Nothing is lost and nothing is handed out twice. */
    lemma Conserved()
      requires Valid()
      ensures front + Window() + Reverse(back) == data
    {
      var all := front + Window() + Reverse(back);
      assert |all| == |data|;
      forall i | 0 <= i < |data|
        ensures all[i] == data[i]
      {
        if i >= ptr + remaining {
          assert all[i] == Reverse(back)[i - ptr - remaining];
        }
      }
    }

    /** Advance, after its check has passed. */
    method Advance(n: nat)
      requires Valid() && n <= remaining
      modifies this
      ensures Valid() && Window() == old(Window())[n..] && back == old(back)
      ensures front == old(front) + old(Window())[..n] && ptr + remaining == old(ptr + remaining)
      ensures remaining == old(remaining) - n
    {
      ptr, remaining := ptr + n, remaining - n;
      front := data[..ptr];
    }

    /** ConsumeBytes, ConsumeBytesAsString and ConsumeData. */
    method ConsumeBytes(n: nat) returns (result: seq<u8>)
      requires Valid()
      modifies this
      ensures Valid() && back == old(back)
      ensures result == old(Window())[..if n <= old(remaining) then n else old(remaining)]
      ensures old(Window()) == result + Window() && front == old(front) + result
    {
      var count := if n <= remaining then n else remaining;
      result := data[ptr..ptr + count];
      Split(Window(), count);
      assert result == Window()[..count];
      Advance(count);
    }

    method ConsumeBytesWithTerminator(n: nat, terminator: u8) returns (result: seq<u8>)
      requires Valid()
      modifies this
      ensures Valid() && back == old(back)
      ensures |result| > 0 && result[|result| - 1] == terminator
      ensures |result| - 1 == if n <= old(remaining) then n else old(remaining)
      ensures result[..|result| - 1] + Window() == old(Window())
    {
      var taken := ConsumeBytes(n);
      result := taken + [terminator];
    }

    /** The loop body of ConsumeRandomLengthString; None ends the string. */
    method ConsumeChar() returns (c: Option<u8>)
      requires Valid() && remaining != 0
      modifies this
      ensures Valid() && back == old(back) && remaining < old(remaining)
      ensures (c, old(remaining) - remaining) == NextChar(old(Window()))
      ensures Window() == old(Window())[NextChar(old(Window())).1..]
      ensures ptr + remaining == old(ptr + remaining)
    {
      ghost var w := Window();
      var next := data[ptr];
      assert next == w[0];
      Advance(1);
      if next == BACKSLASH && remaining != 0 {
        next := data[ptr];
        assert next == w[1];
        Advance(1);
        assert Window() == w[2..];
        if next != BACKSLASH {
          return None;
        }
      }
      c := Some(next);
    }

    method ConsumeRandomLengthString(maxLength: nat) returns (result: seq<u8>)
      requires Valid()
      modifies this
      ensures Valid() && back == old(back) && remaining <= old(remaining)
      ensures (result, old(remaining) - remaining) == Unescape(old(Window()), maxLength)
      ensures ptr + remaining == old(ptr + remaining)
    {
      hide NextChar;
      result := [];
      var i := 0;
      ghost var spec := Unescape(Window(), maxLength);
      assert [] + spec.0 == spec.0;
      while i < maxLength && remaining != 0
        invariant Valid() && back == old(back) && i <= maxLength
        invariant remaining <= old(remaining) && ptr + remaining == old(ptr + remaining)
        invariant Follows(spec, result, old(remaining) - remaining, Unescape(Window(), maxLength - i))
        decreases maxLength - i
      {
        var c := ConsumeChar();
        if c.None? {
          assert result + [] == result;
          return;
        }
        Assoc(result, [c.value], Unescape(Window(), maxLength - i - 1).0);
        result := result + [c.value];
        i := i + 1;
      }
      assert result + [] == result;
    }

    /** One byte off the end. */
    method TakeLast() returns (b: u8)
      requires Valid() && remaining > 0
      modifies this
      ensures Valid() && front == old(front) && remaining == old(remaining) - 1 && back == old(back) + [b]
    {
      remaining := remaining - 1;
      b := data[ptr + remaining];
      back := back + [b];
    }

    /** The loop of ConsumeIntegralInRange: take bytes off the end while the range needs
        more and there are any. */
    method TakeNumber(t: Integral, range: u64) returns (result: u64)
      requires Valid() && t.Valid() && range < Pow256(t.bytes)
      modifies this
      ensures Valid() && front == old(front) && old(back) <= back
      ensures |back| - |old(back)| == old(remaining) - remaining ==
              if Needed(range) <= old(remaining) then Needed(range) else old(remaining)
      ensures result == BigEndian(back[|old(back)|..])
    {
      hide Pow256, Needed;
      result := 0;
      var k := 0;
      ghost var taken: seq<u8> := [];
      while k < t.bytes && range / Pow256(k) > 0 && remaining != 0
        invariant Valid() && front == old(front) && k <= t.bytes
        invariant back == old(back) + taken && |taken| == k && remaining == old(remaining) - k
        invariant k <= Needed(range) && result == BigEndian(taken)
        decreases t.bytes - k
      {
        AtLeast(range, Pow256(k));
        NeededIsLeast(range, k);
        var b := TakeLast();
        BigEndianSnoc(taken, b);
        taken := taken + [b];
        Fits(taken, t);
        result := result * 256 + b;
        k := k + 1;
      }
      AtLeast(range, Pow256(k));
      NeededIsLeast(range, k);
      NeededIsLeast(range, t.bytes);
      assert back[|old(back)|..] == taken;
    }

    /** ConsumeIntegralInRange; None stands for abort(). */
    method ConsumeIntegralInRange(t: Integral, min: int, max: int) returns (r: Option<int>)
      requires Valid() && t.Valid() && t.Holds(min) && t.Holds(max)
      modifies this
      ensures Valid() && front == old(front) && old(back) <= back
      ensures r.None? <==> min > max
      ensures min > max ==> back == old(back)
      ensures min <= max ==>
                && |back| - |old(back)| == old(remaining) - remaining ==
                   (if Needed(max - min) <= old(remaining) then Needed(max - min) else old(remaining))
                && r.value == InRange(back[|old(back)|..], min, max)
      ensures min <= max ==> var w, k := old(Window()), old(remaining) - remaining;
                && 0 <= k <= |w| && Window() == w[..|w| - k] && (k == |w| || max - min < Pow256(k))
                && (k > 0 ==> Pow256(k - 1) <= max - min)
                && r.value == min + LittleEndian(w[|w| - k..]) % (max - min + 1)
    {
      hide Pow256, Needed, BigEndian, LittleEndian, ToU64, Integral.Holds, Integral.Cast;
      if min > max {
        return None;
      }
      RangeIsDifference(t, min, max);
      var range: u64 := (ToU64(max) - ToU64(min)) % TWO64;
      var result := TakeNumber(t, range);
      ghost var taken := result;
      // Avoid division by 0 in case range + 1 overflows.
      if range != TWO64 - 1 {
        result := result % (range + 1);
      }
      RemainderOf(taken, range);
      SumWraps(min, result);
      Lands(t, min, max, min + result);
      r := Some(t.Cast((ToU64(min) + result) % TWO64));
      LeastTaken(max - min, old(remaining), |back| - |old(back)|);
      TakenFromEnd(data, ptr, old(remaining), remaining, back);
    }
  }

  /** As many bytes as the range needs, or all. */
  lemma LeastTaken(range: nat, available: nat, k: nat)
    requires k == if Needed(range) <= available then Needed(range) else available
    ensures k == available || range < Pow256(k)
    ensures k > 0 ==> Pow256(k - 1) <= range
  {
    NeededIsLeast(range, k);
    if k > 0 {
      NeededIsLeast(range, k - 1);
    }
  }

  /** What was taken from the end of a window, which has less left now. */
  lemma TakenFromEnd(data: seq<u8>, ptr: nat, before: nat, after: nat, back: seq<u8>)
    requires after <= before && ptr + before <= |data| && |back| == |data| - ptr - after
    requires forall i :: 0 <= i < |back| ==> back[i] == data[|data| - 1 - i]
    ensures var w := data[ptr..ptr + before];
      && data[ptr..ptr + after] == w[..after]
      && BigEndian(back[|data| - ptr - before..]) == LittleEndian(w[after..])
  {
    hide BigEndian, LittleEndian;
    TakenIsTail(back[|data| - ptr - before..], data[ptr..ptr + before][after..]);
  }

  /** One step of decoding leaves the rest to do. */
  ghost predicate Follows(spec: (seq<u8>, nat), done: seq<u8>, used: nat, rest: (seq<u8>, nat)) {
    spec.0 == done + rest.0 && spec.1 == used + rest.1
  }

  lemma Split(w: seq<u8>, k: nat)
    requires k <= |w|
    ensures w == w[..k] + w[k..]
  {
  }

  lemma Assoc(a: seq<u8>, b: seq<u8>, c: seq<u8>)
    ensures a + b + c == a + (b + c)
  {
  }

  lemma AtLeast(x: nat, p: nat)
    requires p > 0
    ensures x / p > 0 <==> x >= p
  {
    if x < p {
      QuotientUnique(x, p, 0, x);
    }
  }

  lemma RemainderOf(n: u64, range: u64)
    ensures n % (range + 1) <= range
    ensures range == TWO64 - 1 ==> n % (range + 1) == n
  {
  }

  lemma Fits(bytes: seq<u8>, t: Integral)
    requires t.Valid() && |bytes| <= t.bytes
    ensures BigEndian(bytes) < TWO64
  {
    BigEndianBound(bytes);
    Pow256Grows(|bytes|, 8);
    Sizes();
  }

  lemma {:induction false} Pow256Grows(a: nat, b: nat)
    requires a <= b
    ensures Pow256(a) <= Pow256(b)
    decreases b - a
  {
    if a < b {
      Pow256Grows(a, b - 1);
    }
  }

  /** What lies between two values of a type is one. */
  lemma Lands(t: Integral, min: int, max: int, x: int)
    requires t.Valid() && t.Holds(min) && t.Holds(max) && min <= x <= max
    ensures t.Cast(ToU64(x)) == x
  {
    CastBack(t, x);
  }

  lemma SumWraps(min: int, result: u64)
    ensures (ToU64(min) + result) % TWO64 == ToU64(min + result)
  {
    var q := min / TWO64;
    assert min == q * TWO64 + ToU64(min);
    assert min + result == q * TWO64 + (ToU64(min) + result);
  }
}
