/** Shared building blocks: optional values, JavaScript string trimming,
    number formatting, and the filter and ordering used by the SQL queries. */
module Common {

  /** A JSON value that may be null or absent. */
  datatype Option<T> = None | Some(value: T)

  /** The code points that JavaScript's String.prototype.trim removes:
      the WhiteSpace and LineTerminator productions of ECMA-262. */
  predicate IsJsSpace(c: char)
  {
    || c == '\t' || c == '\n' || c == '\U{000B}' || c == '\U{000C}' || c == '\r'
    || c == ' ' || c == '\U{00A0}' || c == '\U{1680}'
    || ('\U{2000}' <= c <= '\U{200A}')
    || c == '\U{2028}' || c == '\U{2029}' || c == '\U{202F}' || c == '\U{205F}'
    || c == '\U{3000}' || c == '\U{FEFF}'
  }

  /** Every character of `s` is white space (also true of the empty string). */
  predicate IsBlank(s: string)
  {
    forall i :: 0 <= i < |s| ==> IsJsSpace(s[i])
  }

  /** Drops the leading white space of `s`. */
  function TrimStart(s: string): (r: string)
    ensures |r| <= |s| && r == s[|s| - |r|..]
    ensures r == [] || !IsJsSpace(r[0])
    ensures forall i :: 0 <= i < |s| - |r| ==> IsJsSpace(s[i])
  {
    if s != [] && IsJsSpace(s[0]) then
      var r := TrimStart(s[1..]);
      assert forall i :: 1 <= i < |s| ==> s[i] == s[1..][i - 1];
      r
    else s
  }

  /** Drops the trailing white space of `s`. */
  function TrimEnd(s: string): (r: string)
    ensures |r| <= |s| && r == s[..|r|]
    ensures r == [] || !IsJsSpace(r[|r| - 1])
    ensures forall i :: |r| <= i < |s| ==> IsJsSpace(s[i])
  {
    if s != [] && IsJsSpace(s[|s| - 1]) then
      var r := TrimEnd(s[..|s| - 1]);
      assert forall i :: 0 <= i < |s| - 1 ==> s[i] == s[..|s| - 1][i];
      r
    else s
  }

  /** String.prototype.trim. */
  function Trim(s: string): string
  {
    TrimEnd(TrimStart(s))
  }

  /** A blank string trims to nothing. */
  lemma {:induction false} BlankTrimsEmpty(s: string)
    requires IsBlank(s)
    ensures TrimStart(s) == [] && Trim(s) == []
    decreases |s|
  {
    if s != [] {
      assert IsJsSpace(s[0]);
      assert IsBlank(s[1..]) by {
        assert forall k :: 0 <= k < |s| - 1 ==> s[1..][k] == s[k + 1];
      }
      BlankTrimsEmpty(s[1..]);
    }
  }

  /** Trimming keeps every character of `s` that is not white space. */
  lemma NotBlankTrimsNonEmpty(s: string, i: int)
    requires 0 <= i < |s| && !IsJsSpace(s[i])
    ensures Trim(s) != []
  {
    var t := TrimStart(s);
    var j := i - (|s| - |t|);
    assert 0 <= j < |t| && t[j] == s[i];
    var u := TrimEnd(t);
    assert j < |u|;
  }

  /** `!s.trim()` holds exactly when `s` consists of white space only. */
  lemma TrimEmptyIffBlank(s: string)
    ensures Trim(s) == [] <==> IsBlank(s)
  {
    if IsBlank(s) {
      BlankTrimsEmpty(s);
    } else {
      var i :| 0 <= i < |s| && !IsJsSpace(s[i]);
      NotBlankTrimsNonEmpty(s, i);
    }
  }

  /** JavaScript's `s || d` on a string that may be null or absent:
      the default replaces a missing and an empty string. */
  function Or(s: Option<string>, d: string): string
  {
    if s.Some? && s.value != "" then s.value else d
  }

  function DigitChar(d: nat): char
    requires d < 10
  {
    "0123456789"[d]
  }

  predicate IsDigit(c: char)
  {
    '0' <= c <= '9'
  }

  /** Decimal notation of a natural number, as `${n}` prints it. */
  function NatToString(n: nat): (r: string)
    ensures r != []
    ensures forall i :: 0 <= i < |r| ==> IsDigit(r[i])
  {
    if n < 10 then [DigitChar(n)] else NatToString(n / 10) + [DigitChar(n % 10)]
  }

  /** Decimal notation of an integer, with a leading '-' when negative. */
  function IntToString(i: int): string
  {
    if i < 0 then "-" + NatToString(-i) else NatToString(i)
  }

  function DigitValue(c: char): nat
    requires IsDigit(c)
  {
    c as int - '0' as int
  }

  /** The number a string of decimal digits denotes. */
  function DecimalValue(s: string): nat
    requires forall i :: 0 <= i < |s| ==> IsDigit(s[i])
    decreases |s|
  {
    if s == [] then 0 else DecimalValue(s[..|s| - 1]) * 10 + DigitValue(s[|s| - 1])
  }

  lemma DigitCharValue(d: nat)
    requires d < 10
    ensures IsDigit(DigitChar(d)) && DigitValue(DigitChar(d)) == d
  {
    assert d == 0 || d == 1 || d == 2 || d == 3 || d == 4 || d == 5 || d == 6 || d == 7 || d == 8 || d == 9;
  }

  /** Reading the printed numeral back gives the number. */
  lemma {:induction false} NatToStringRoundTrip(n: nat)
    ensures DecimalValue(NatToString(n)) == n
  {
    var s := NatToString(n);
    if n < 10 {
      DigitCharValue(n);
      assert s[..|s| - 1] == [];
    } else {
      NatToStringRoundTrip(n / 10);
      DigitCharValue(n % 10);
      assert s[..|s| - 1] == NatToString(n / 10);
    }
  }

  /** Distinct numbers print differently, so the record numbers of an
      export are distinct. */
  lemma NatToStringInjective(n: nat, m: nat)
    ensures NatToString(n) == NatToString(m) ==> n == m
  {
    NatToStringRoundTrip(n);
    NatToStringRoundTrip(m);
  }

  /** The elements of `s` that satisfy `p`, in their original order
      (Array.prototype.filter, and a SQL WHERE over a table scan). */
  function Filter<T>(s: seq<T>, p: T -> bool): (r: seq<T>)
    ensures |r| <= |s|
    ensures forall i :: 0 <= i < |r| ==> p(r[i])
    ensures forall i :: 0 <= i < |r| ==> r[i] in s
    ensures forall i :: 0 <= i < |s| && p(s[i]) ==> s[i] in r
    ensures multiset(r) <= multiset(s)
  {
    if s == [] then []
    else
      assert s == [s[0]] + s[1..];
      (if p(s[0]) then [s[0]] else []) + Filter(s[1..], p)
  }

  /** Filtering commutes with concatenation: the relative order of the kept
      elements is that of the input. */
  lemma {:induction false} FilterConcat<T>(a: seq<T>, b: seq<T>, p: T -> bool)
    ensures Filter(a + b, p) == Filter(a, p) + Filter(b, p)
  {
    if a == [] {
      assert a + b == b;
    } else {
      assert (a + b)[1..] == a[1..] + b;
      FilterConcat(a[1..], b, p);
    }
  }

  /** Two sequences of equal length whose elements agree pointwise on `p`
      and `q` have equally many elements kept by their filters. */
  lemma {:induction false} FilterCountPointwise<T, U>(a: seq<T>, p: T -> bool, b: seq<U>, q: U -> bool)
    requires |a| == |b|
    requires forall i :: 0 <= i < |a| ==> (p(a[i]) <==> q(b[i]))
    ensures |Filter(a, p)| == |Filter(b, q)|
  {
    if a != [] {
      FilterCountPointwise(a[1..], p, b[1..], q);
    }
  }

  /** `s` is ordered by non-increasing `key` (ORDER BY key DESC). */
  ghost predicate SortedDesc<T>(s: seq<T>, key: T -> int)
  {
    forall i, j :: 0 <= i < j < |s| ==> key(s[i]) >= key(s[j])
  }

  /** Inserts `x` into `s` before the first element whose key is not larger. */
  function InsertDesc<T>(x: T, s: seq<T>, key: T -> int): (r: seq<T>)
    ensures |r| == |s| + 1
    ensures multiset(r) == multiset(s) + multiset{x}
  {
    if s == [] || key(x) >= key(s[0]) then [x] + s
    else
      assert s == [s[0]] + s[1..];
      [s[0]] + InsertDesc(x, s[1..], key)
  }

  /** Every element of an insertion result is the inserted one or came from
      the sequence inserted into. */
  lemma InsertDescFrom<T>(x: T, s: seq<T>, key: T -> int, i: int)
    requires 0 <= i < |InsertDesc(x, s, key)|
    ensures InsertDesc(x, s, key)[i] == x || InsertDesc(x, s, key)[i] in s
  {
    var r := InsertDesc(x, s, key);
    assert r[i] in multiset(r);
  }

  lemma {:induction false} InsertDescSorted<T>(x: T, s: seq<T>, key: T -> int)
    requires SortedDesc(s, key)
    ensures SortedDesc(InsertDesc(x, s, key), key)
  {
    if s == [] || key(x) >= key(s[0]) {
    } else {
      var rest := InsertDesc(x, s[1..], key);
      InsertDescSorted(x, s[1..], key);
      forall j | 0 <= j < |rest| ensures key(s[0]) >= key(rest[j]) {
        InsertDescFrom(x, s[1..], key, j);
      }
      assert InsertDesc(x, s, key) == [s[0]] + rest;
    }
  }

  /** A stable insertion sort into non-increasing key order; it stands for
      SQL's ORDER BY key DESC, whose order among equal keys is unspecified. */
  function SortDesc<T>(s: seq<T>, key: T -> int): (r: seq<T>)
    ensures |r| == |s|
    ensures multiset(r) == multiset(s)
    ensures SortedDesc(r, key)
  {
    if s == [] then []
    else
      assert s == [s[0]] + s[1..];
      InsertDescSorted(s[0], SortDesc(s[1..], key), key);
      InsertDesc(s[0], SortDesc(s[1..], key), key)
  }

  /** Filter unfolded once at the front. */
  lemma FilterCons<T>(x: T, s: seq<T>, p: T -> bool)
    ensures Filter([x] + s, p) == (if p(x) then [x] else []) + Filter(s, p)
  {
    assert ([x] + s)[1..] == s;
  }

  /** Ordering a sequence does not change how many of its elements a
      filter keeps. */
  lemma {:induction false} FilterCountInsertDesc<T>(x: T, s: seq<T>, key: T -> int, p: T -> bool)
    ensures |Filter(InsertDesc(x, s, key), p)| == |Filter([x] + s, p)|
  {
    if s != [] && key(x) < key(s[0]) {
      var y, tail := s[0], s[1..];
      assert s == [y] + tail;
      var rest := InsertDesc(x, tail, key);
      assert InsertDesc(x, s, key) == [y] + rest;
      var cx, cy := (if p(x) then 1 else 0), (if p(y) then 1 else 0);
      FilterCountInsertDesc(x, tail, key, p);
      FilterCons(y, rest, p);
      assert |Filter([y] + rest, p)| == cy + |Filter(rest, p)|;
      FilterCons(x, tail, p);
      assert |Filter(rest, p)| == cx + |Filter(tail, p)|;
      FilterCons(x, s, p);
      FilterCons(y, tail, p);
      assert |Filter([x] + s, p)| == cx + cy + |Filter(tail, p)|;
    }
  }

  lemma {:induction false} FilterCountSortDesc<T>(s: seq<T>, key: T -> int, p: T -> bool)
    ensures |Filter(SortDesc(s, key), p)| == |Filter(s, p)|
  {
    if s != [] {
      var sorted := SortDesc(s[1..], key);
      var c := if p(s[0]) then 1 else 0;
      calc {
        |Filter(SortDesc(s, key), p)|;
        { assert SortDesc(s, key) == InsertDesc(s[0], sorted, key); }
        |Filter(InsertDesc(s[0], sorted, key), p)|;
        { FilterCountInsertDesc(s[0], sorted, key, p); }
        |Filter([s[0]] + sorted, p)|;
        { FilterCons(s[0], sorted, p); }
        c + |Filter(sorted, p)|;
        { FilterCountSortDesc(s[1..], key, p); }
        c + |Filter(s[1..], p)|;
        { FilterCons(s[0], s[1..], p); }
        |Filter([s[0]] + s[1..], p)|;
        { assert s == [s[0]] + s[1..]; }
        |Filter(s, p)|;
      }
    }
  }

  /** Ordering keeps exactly the elements of the input. */
  lemma SortDescMember<T>(s: seq<T>, key: T -> int, x: T)
    ensures x in SortDesc(s, key) <==> x in s
  {
    assert x in multiset(SortDesc(s, key)) <==> x in multiset(s);
  }

  /** The text lines of a `forEach((x, index) => ...)` that emits one block
      of lines per element, in input order, the block built from the index
      and the element. */
  function Blocks<T>(rs: seq<T>, block: (nat, T) -> seq<string>): seq<string>
  {
    if rs == [] then [] else Blocks(rs[..|rs| - 1], block) + block(|rs| - 1, rs[|rs| - 1])
  }

  lemma MulStep(w: nat, n: nat)
    ensures w * (n + 1) == w * n + w
  {
  }

  lemma {:induction false} MulBelow(w: nat, k: nat, n: nat)
    requires k < n
    ensures w * k + w <= w * n
    decreases n
  {
    if k + 1 < n {
      MulBelow(w, k, n - 1);
      MulStep(w, n - 1);
    } else {
      MulStep(w, k);
    }
  }

  lemma {:induction false} MulNonNegative(w: nat, k: nat)
    ensures w * k >= 0
    decreases k
  {
    if k > 0 {
      MulNonNegative(w, k - 1);
      MulStep(w, k - 1);
    }
  }

  /** With blocks of `w` lines, there are `w` lines per element. */
  lemma {:induction false} BlocksLength<T>(rs: seq<T>, block: (nat, T) -> seq<string>, w: nat)
    requires forall k: nat, x: T :: |block(k, x)| == w
    ensures |Blocks(rs, block)| == w * |rs|
  {
    if rs != [] {
      BlocksLength(rs[..|rs| - 1], block, w);
      MulStep(w, |rs| - 1);
    }
  }

  /** With blocks of `w` lines, block `k` occupies lines `w*k` to `w*k + w`. */
  lemma {:induction false} BlockAt<T>(rs: seq<T>, block: (nat, T) -> seq<string>, w: nat, k: nat)
    requires forall k: nat, x: T :: |block(k, x)| == w
    requires k < |rs|
    ensures 0 <= w * k && w * k + w <= |Blocks(rs, block)|
    ensures Blocks(rs, block)[w * k .. w * k + w] == block(k, rs[k])
  {
    var n := |rs| - 1;
    var init := rs[..n];
    var front := Blocks(init, block);
    var b := Blocks(rs, block);
    assert b == front + block(n, rs[n]);
    BlocksLength(init, block, w);
    MulNonNegative(w, k);
    MulStep(w, n);
    if k < n {
      BlockAt(init, block, w, k);
      MulBelow(w, k, n);
      assert b[w * k .. w * k + w] == front[w * k .. w * k + w];
      assert rs[k] == init[k];
    } else {
      assert b[w * k .. w * k + w] == block(n, rs[n]);
    }
  }
}
