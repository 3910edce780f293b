/** Market ticks as they travel between the stages. */
module Ticks {
  import opened Sequences

  /** A floating-point field: only the finite values are numbers. */
  datatype Double = NaN | NegInf | PosInf | Finite(value: real) {
    predicate AtMostZero() { NegInf? || (Finite? && value <= 0.0) }

    /** Floating-point equality: NaN differs from itself. */
    predicate Equals(other: Double) { !NaN? && this == other }
  }

  type Byte = x: int | 0 <= x < 256

  const NUL: char := '\0'

  /** A fixed field of eight characters. */
  datatype Symbol = Symbol(c0: char, c1: char, c2: char, c3: char, c4: char, c5: char, c6: char, c7: char) {
    function Chars(): seq<char> { [c0, c1, c2, c3, c4, c5, c6, c7] }
  }

  datatype Tick = Tick(symbol: Symbol, price: Double, volume: Double, timestamp: int, side: Byte)

  /** The characters before the first NUL: the key under which books and references are kept. */
  function CString(s: seq<char>): (r: string) {
    if s == [] || s[0] == NUL then [] else [s[0]] + CString(s[1..])
  }

  ghost predicate ZeroPadded(s: seq<char>) {
    forall i, j :: 0 <= i < j < |s| && s[i] == NUL ==> s[j] == NUL
  }

  lemma {:induction false} PaddedTail(s: seq<char>)
    requires s != [] && ZeroPadded(s)
    ensures ZeroPadded(s[1..])
  {
    forall i, j | 0 <= i < j < |s[1..]| && s[1..][i] == NUL ensures s[1..][j] == NUL {
      assert s[i + 1] == NUL;
    }
  }

  /** On zero-padded fields of one length, the C string determines the field. */
  lemma {:induction false} PaddedKeyIsInjective(a: seq<char>, b: seq<char>)
    requires |a| == |b| && ZeroPadded(a) && ZeroPadded(b) && CString(a) == CString(b)
    ensures a == b
  {
    if a != [] {
      if a[0] != NUL {
        PaddedTail(a);
        PaddedTail(b);
        assert CString(a)[1..] == CString(a[1..]) && CString(b)[1..] == CString(b[1..]);
        PaddedKeyIsInjective(a[1..], b[1..]);
        assert a == [a[0]] + a[1..] && b == [b[0]] + b[1..];
      }
    }
  }

  lemma PaddedSymbolsInjective(a: Symbol, b: Symbol)
    requires ZeroPadded(a.Chars()) && ZeroPadded(b.Chars()) && CString(a.Chars()) == CString(b.Chars())
    ensures a == b
  {
    PaddedKeyIsInjective(a.Chars(), b.Chars());
    var s := a.Chars();
    assert a == Symbol(s[0], s[1], s[2], s[3], s[4], s[5], s[6], s[7]);
  }

  function CharAt(name: string, i: nat): char { if i < |name| then name[i] else NUL }

  /** The symbol field made from a name: its first eight characters, zero-filled. */
  function MakeSymbol(name: string): (s: Symbol)
    ensures forall i :: 0 <= i < 8 ==> s.Chars()[i] == if i < |name| then name[i] else NUL
    ensures NUL !in name ==> ZeroPadded(s.Chars())
  {
    Symbol(CharAt(name, 0), CharAt(name, 1), CharAt(name, 2), CharAt(name, 3),
           CharAt(name, 4), CharAt(name, 5), CharAt(name, 6), CharAt(name, 7))
  }

  lemma {:induction false} CStringOf(s: seq<char>, n: nat)
    requires n <= |s| && NUL !in s[..n] && (n < |s| ==> s[n] == NUL)
    ensures CString(s) == s[..n]
  {
    if n > 0 {
      assert s[0] in s[..n] && s[..n] == [s[0]] + s[1..][..n - 1];
      CStringOf(s[1..], n - 1);
    }
  }

  /** The key of the field made from a name is the name, cut to eight characters. */
  lemma KeyOfName(name: string)
    requires NUL !in name
    ensures CString(MakeSymbol(name).Chars()) == if |name| <= 8 then name else name[..8]
  {
    var s, n := MakeSymbol(name).Chars(), if |name| <= 8 then |name| else 8;
    assert s[..n] == name[..n];
    CStringOf(s, n);
  }

  function RawKey(t: Tick): Symbol { t.symbol }

  function BookKey(t: Tick): string { CString(t.symbol.Chars()) }

  /** Ticks with the same key never go back in time. */
  ghost predicate MonotoneBy<K>(key: Tick -> K, s: seq<Tick>) {
    forall i, j :: 0 <= i < j < |s| && key(s[i]) == key(s[j]) ==> s[i].timestamp <= s[j].timestamp
  }

  lemma MonotonePrefix<K>(key: Tick -> K, s: seq<Tick>)
    requires s != [] && MonotoneBy(key, s)
    ensures MonotoneBy(key, Front(s))
  {
    assert forall i :: 0 <= i < |s| - 1 ==> Front(s)[i] == s[i];
  }

  lemma MonotoneSnoc<K>(key: Tick -> K, s: seq<Tick>, t: Tick)
    requires MonotoneBy(key, s)
    requires forall x :: x in s && key(x) == key(t) ==> x.timestamp <= t.timestamp
    ensures MonotoneBy(key, s + [t])
  {
    assert forall i :: 0 <= i < |s| ==> (s + [t])[i] == s[i];
  }

  lemma MonotoneLast<K>(key: Tick -> K, s: seq<Tick>, x: Tick)
    requires s != [] && MonotoneBy(key, s) && x in Front(s) && key(x) == key(Last(s))
    ensures x.timestamp <= Last(s).timestamp
  {
    var k :| 0 <= k < |Front(s)| && Front(s)[k] == x;
    assert s[k] == x && s[|s| - 1] == Last(s);
  }

  lemma {:induction false} MonotoneCarries<K>(key: Tick -> K, a: seq<Tick>, b: seq<Tick>)
    requires Subsequence(a, b) && MonotoneBy(key, b)
    ensures MonotoneBy(key, a)
    decreases |b|
  {
    if a != [] {
      MonotonePrefix(key, b);
      if Subsequence(a, Front(b)) {
        MonotoneCarries(key, a, Front(b));
      } else {
        MonotoneCarries(key, Front(a), Front(b));
        forall x | x in Front(a) && key(x) == key(Last(a)) ensures x.timestamp <= Last(a).timestamp {
          MembersCarry(Front(a), Front(b), x);
          MonotoneLast(key, b, x);
        }
        MonotoneSnoc(key, Front(a), Last(a));
      }
    }
  }
}
