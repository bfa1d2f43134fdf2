/** Sequences of text fragments: their concatenation, separator joins, and the
    length JavaScript gives a string (UTF-16 code units). */
module Tokens {

  /** The text a token sequence spells out. */
  function Concat(ts: seq<string>): string
  {
    if ts == [] then "" else ts[0] + Concat(ts[1..])
  }

  /** Each part preceded by the separator. */
  function SepEach<T>(sep: seq<T>, parts: seq<seq<T>>): seq<T>
  {
    if parts == [] then [] else sep + parts[0] + SepEach(sep, parts[1..])
  }

  /** The parts with the separator between neighbours, as
      `Array.prototype.join`. */
  function Join<T>(sep: seq<T>, parts: seq<seq<T>>): seq<T>
  {
    if parts == [] then [] else parts[0] + SepEach(sep, parts[1..])
  }

  /** The parts of a member loop: joined when the loop starts its
      container, every part preceded by the separator when members came
      before. */
  function Joined<T>(first: bool, sep: seq<T>, parts: seq<seq<T>>): seq<T>
  {
    if first then Join(sep, parts) else SepEach(sep, parts)
  }

  lemma JoinedCons<T>(first: bool, sep: seq<T>, x: seq<T>, xs: seq<seq<T>>)
    ensures Joined(first, sep, [x] + xs) == (if first then [] else sep) + x + SepEach(sep, xs)
  {
    assert ([x] + xs)[1..] == xs;
  }

  /** `s.length` in JavaScript: characters outside the Basic Multilingual
      Plane take two code units. */
  function Utf16Length(s: string): (n: nat)
    ensures |s| <= n <= 2 * |s|
  {
    if s == [] then 0 else (if s[0] as int >= 0x1_0000 then 2 else 1) + Utf16Length(s[1..])
  }

  lemma {:induction false} ConcatAppend(a: seq<string>, b: seq<string>)
    ensures Concat(a + b) == Concat(a) + Concat(b)
  {
    if a != [] {
      assert (a + b)[1..] == a[1..] + b;
      ConcatAppend(a[1..], b);
    } else {
      assert a + b == b;
    }
  }

  /** Any run of leading tokens spells out a prefix of the whole text. */
  lemma ConcatPrefix(ts: seq<string>, k: nat)
    requires k <= |ts|
    ensures Concat(ts[..k]) <= Concat(ts)
  {
    assert ts == ts[..k] + ts[k..];
    ConcatAppend(ts[..k], ts[k..]);
  }

  lemma {:induction false} Utf16Append(s: string, t: string)
    ensures Utf16Length(s + t) == Utf16Length(s) + Utf16Length(t)
  {
    if s != [] {
      assert (s + t)[1..] == s[1..] + t;
      Utf16Append(s[1..], t);
    } else {
      assert s + t == t;
    }
  }
}
