/**
 * The Ruby String operations the diff engine relies on: `end_with?`,
 * substring lookup `s[t]`, `strip`, `split(/[\s,]/)`, `Integer#to_s`, and the
 * ordering that `Array#sort` uses on strings.
 */
module Text {
  import opened Lists

  /** Ruby `s.end_with?(suffix)`. */
  predicate EndsWith(s: string, suffix: string)
  {
    |suffix| <= |s| && s[|s| - |suffix|..] == suffix
  }

  /** Ruby `s[t]` is non-nil exactly when `t` occurs in `s`. */
  predicate Contains(s: string, t: string)
  {
    (|t| <= |s| && s[..|t|] == t) || (s != [] && Contains(s[1..], t))
  }

  /** `t` occurs in `s` at position `i`. */
  predicate OccursAt(s: string, t: string, i: int)
  {
    0 <= i <= |s| - |t| && s[i..i + |t|] == t
  }

  lemma {:induction false} ContainsAt(s: string, t: string, i: nat)
    requires OccursAt(s, t, i)
    ensures Contains(s, t)
  {
    if i > 0 {
      assert s[1..][i - 1..i - 1 + |t|] == s[i..i + |t|];
      ContainsAt(s[1..], t, i - 1);
    }
  }

  /** Where `s[t]` finds `t`. */
  lemma {:induction false} ContainsWitness(s: string, t: string) returns (i: nat)
    requires Contains(s, t)
    ensures OccursAt(s, t, i)
  {
    if |t| <= |s| && s[..|t|] == t {
      i := 0;
    } else {
      var j := ContainsWitness(s[1..], t);
      i := j + 1;
      assert s[1..][j..j + |t|] == s[i..i + |t|];
    }
  }

  /** `s[t]` is non-nil exactly when `t` is a slice of `s`. */
  lemma ContainsSpec(s: string, t: string)
    ensures Contains(s, t) <==> exists i :: OccursAt(s, t, i)
  {
    if Contains(s, t) {
      var i := ContainsWitness(s, t);
    }
    forall i | OccursAt(s, t, i)
      ensures Contains(s, t)
    {
      ContainsAt(s, t, i);
    }
  }

  // ---------------------------------------------------------------------
  // strip

  /** The characters Ruby's `String#strip` removes: NUL, tab, line feed,
      vertical tab, form feed, carriage return and space. */
  predicate IsStripSpace(c: char)
  {
    c == '\0' || c == '\t' || c == '\n' || c == '\U{000B}' || c == '\U{000C}' || c == '\r' || c == ' '
  }

  /** `s` without its leading strip-space characters. */
  function StripLeading(s: string): (r: string)
    ensures |r| <= |s| && r == s[|s| - |r|..]
    ensures r == [] || !IsStripSpace(r[0])
    ensures forall i :: 0 <= i < |s| - |r| ==> IsStripSpace(s[i])
  {
    if s != [] && IsStripSpace(s[0]) then
      var r := StripLeading(s[1..]);
      assert s[1..][|s| - 1 - |r|..] == s[|s| - |r|..];
      assert forall i :: 1 <= i < |s| ==> s[i] == s[1..][i - 1];
      r
    else s
  }

  /** `s` without its trailing strip-space characters. */
  function StripTrailing(s: string): (r: string)
    ensures |r| <= |s| && r == s[..|r|]
    ensures r == [] || !IsStripSpace(r[|r| - 1])
    ensures forall i :: |r| <= i < |s| ==> IsStripSpace(s[i])
  {
    if s != [] && IsStripSpace(s[|s| - 1]) then
      var r := StripTrailing(s[..|s| - 1]);
      assert s[..|s| - 1][..|r|] == s[..|r|];
      assert forall i :: 0 <= i < |s| - 1 ==> s[i] == s[..|s| - 1][i];
      r
    else s
  }

  /** `r` is the slice of `s` at `i`, and only strip-space characters lie
      before and after it. */
  ghost predicate StrippedAt(s: string, r: string, i: int)
  {
    && 0 <= i <= |s| - |r| && r == s[i..i + |r|]
    && (forall j :: 0 <= j < i ==> IsStripSpace(s[j]))
    && (forall j :: i + |r| <= j < |s| ==> IsStripSpace(s[j]))
  }

  /** Ruby `s.strip`. */
  function Strip(s: string): (r: string)
    ensures r == [] || (!IsStripSpace(r[0]) && !IsStripSpace(r[|r| - 1]))
    ensures exists i :: StrippedAt(s, r, i)
  {
    StripSlice(s);
    StripTrailing(StripLeading(s))
  }

  lemma StripSlice(s: string)
    ensures StrippedAt(s, StripTrailing(StripLeading(s)), |s| - |StripLeading(s)|)
  {
    TrimmedSlice(s, StripLeading(s), StripTrailing(StripLeading(s)));
  }

  /** Cutting a strip-space head off `s` and a strip-space tail off the
      rest leaves a slice of `s` with only strip-space around it. */
  lemma TrimmedSlice(s: string, l: string, r: string)
    requires |l| <= |s| && l == s[|s| - |l|..]
    requires |r| <= |l| && r == l[..|r|]
    requires forall j :: 0 <= j < |s| - |l| ==> IsStripSpace(s[j])
    requires forall j :: |r| <= j < |l| ==> IsStripSpace(l[j])
    ensures StrippedAt(s, r, |s| - |l|)
  {
    var i := |s| - |l|;
    forall j | i + |r| <= j < |s|
      ensures IsStripSpace(s[j])
    {
      assert s[j] == l[j - i];
    }
  }

  // ---------------------------------------------------------------------
  // split(/[\s,]/)

  /** The characters matched by the pattern `[\s,]`: Ruby's `\s` is space,
      tab, carriage return, line feed, form feed and vertical tab. */
  predicate IsDelimiter(c: char)
  {
    c == ' ' || c == '\t' || c == '\r' || c == '\n' || c == '\U{000C}' || c == '\U{000B}' || c == ','
  }

  /** The pieces between single delimiter characters, empty pieces included
      (one more piece than there are delimiters). */
  function Fields(s: string): (r: seq<string>)
    ensures |r| >= 1
  {
    if s == [] then [""]
    else
      var rest := Fields(s[1..]);
      if IsDelimiter(s[0]) then [""] + rest
      else [[s[0]] + rest[0]] + rest[1..]
  }

  /** The delimiter characters of `s`, in order. */
  function Delimiters(s: string): (r: string)
  {
    if s == [] then []
    else if IsDelimiter(s[0]) then [s[0]] + Delimiters(s[1..])
    else Delimiters(s[1..])
  }

  /** Puts the pieces back together, `ds[i]` between `fs[i]` and `fs[i + 1]`. */
  function Interleave(fs: seq<string>, ds: string): string
    requires |fs| == |ds| + 1
  {
    if ds == [] then fs[0]
    else fs[0] + [ds[0]] + Interleave(fs[1..], ds[1..])
  }

  /** The pieces hold no delimiter, and putting them back together with the
      delimiters they were cut at gives the original string. */
  lemma {:induction false} FieldsRoundTrip(s: string)
    ensures |Fields(s)| == |Delimiters(s)| + 1
    ensures forall f, c :: f in Fields(s) && c in f ==> !IsDelimiter(c)
    ensures Interleave(Fields(s), Delimiters(s)) == s
  {
    if s != [] {
      FieldsRoundTrip(s[1..]);
      var rest := Fields(s[1..]);
      if IsDelimiter(s[0]) {
        assert Fields(s)[1..] == rest;
      } else {
        var fs := Fields(s);
        assert fs[0] == [s[0]] + rest[0] && fs[1..] == rest[1..];
        forall f, c | f in fs && c in f ensures !IsDelimiter(c) {
          if f == fs[0] && c !in rest[0] {
            assert c == s[0];
          }
        }
        var ds := Delimiters(s[1..]);
        assert Delimiters(s) == ds;
        if ds == [] {
          assert Interleave(fs, ds) == fs[0];
        } else {
          assert Interleave(fs, ds) == fs[0] + [ds[0]] + Interleave(rest[1..], ds[1..]);
          assert Interleave(rest, ds) == rest[0] + [ds[0]] + Interleave(rest[1..], ds[1..]);
        }
      }
    }
  }

  /** Ruby's `split` drops every trailing empty piece. */
  function DropTrailingEmpty(fs: seq<string>): (r: seq<string>)
    ensures |r| <= |fs| && r == fs[..|r|]
    ensures r == [] || r[|r| - 1] != ""
    ensures forall i :: |r| <= i < |fs| ==> fs[i] == ""
  {
    if fs == [] || fs[|fs| - 1] != "" then fs
    else DropTrailingEmpty(fs[..|fs| - 1])
  }

  /** Ruby `s.split(/[\s,]/)`. */
  function Split(s: string): (r: seq<string>)
  {
    DropTrailingEmpty(Fields(s))
  }

  // ---------------------------------------------------------------------
  // Integer#to_s

  function DigitChar(d: nat): char
    requires d < 10
  {
    "0123456789"[d]
  }

  /** Ruby `n.to_s` for a non-negative integer: decimal, no leading zeros. */
  function NatToString(n: nat): (r: string)
    ensures |r| >= 1
    ensures forall i :: 0 <= i < |r| ==> '0' <= r[i] <= '9'
    ensures r[0] == '0' <==> n == 0
  {
    if n < 10 then [DigitChar(n)] else NatToString(n / 10) + [DigitChar(n % 10)]
  }

  /** The number a string of decimal digits denotes. */
  function DecimalValue(s: string): nat
    requires forall i :: 0 <= i < |s| ==> '0' <= s[i] <= '9'
  {
    if s == [] then 0 else DecimalValue(s[..|s| - 1]) * 10 + (s[|s| - 1] as int - '0' as int)
  }

  /** Reading the decimal rendering gives the number back. */
  lemma {:induction false} NatToStringRoundTrip(n: nat)
    ensures DecimalValue(NatToString(n)) == n
  {
    if n >= 10 {
      var r := NatToString(n);
      assert r[..|r| - 1] == NatToString(n / 10);
      NatToStringRoundTrip(n / 10);
    }
  }

  /** Different indices render as different keys. */
  lemma NatToStringInjective(a: nat, b: nat)
    requires NatToString(a) == NatToString(b)
    ensures a == b
  {
    NatToStringRoundTrip(a);
    NatToStringRoundTrip(b);
  }

  // ---------------------------------------------------------------------
  // ordering of strings, as Ruby's String#<=> (code point by code point,
  // a proper prefix first)

  predicate Below(a: string, b: string)
  {
    if a == [] then b != []
    else if b == [] then false
    else if a[0] != b[0] then a[0] < b[0]
    else Below(a[1..], b[1..])
  }

  lemma {:induction false} BelowIrreflexive(a: string)
    ensures !Below(a, a)
  {
    if a != [] {
      BelowIrreflexive(a[1..]);
    }
  }

  lemma {:induction false} BelowTransitive(a: string, b: string, c: string)
    requires Below(a, b) && Below(b, c)
    ensures Below(a, c)
  {
    if a != [] && a[0] == b[0] && b[0] == c[0] {
      BelowTransitive(a[1..], b[1..], c[1..]);
    }
  }

  lemma {:induction false} BelowTotal(a: string, b: string)
    ensures a == b || Below(a, b) || Below(b, a)
  {
    if a != [] && b != [] && a[0] == b[0] {
      BelowTotal(a[1..], b[1..]);
      if a[1..] == b[1..] {
        assert a == [a[0]] + a[1..] && b == [b[0]] + b[1..];
      }
    }
  }

  /** Ascending, as Ruby's `sort` leaves an array of strings. */
  ghost predicate Sorted(s: seq<string>)
  {
    forall i, j :: 0 <= i < j < |s| ==> !Below(s[j], s[i])
  }

  lemma BelowAsymmetric(a: string, b: string)
    requires Below(a, b)
    ensures !Below(b, a)
  {
    BelowIrreflexive(a);
    if Below(b, a) {
      BelowTransitive(a, b, a);
    }
  }

  /** In a sorted list nothing after the head sorts before it. */
  lemma SortedHead(s: seq<string>)
    requires Sorted(s) && s != []
    ensures forall y :: y in multiset(s[1..]) ==> !Below(y, s[0])
  {
    forall y | y in multiset(s[1..]) ensures !Below(y, s[0]) {
      assert y in s[1..];
      var k :| 0 <= k < |s[1..]| && s[1..][k] == y;
      assert s[k + 1] == y;
    }
  }

  /** A head that nothing in a sorted tail sorts before keeps it sorted. */
  lemma SortedCons(h: string, t: seq<string>)
    requires Sorted(t)
    requires forall y :: y in multiset(t) ==> !Below(y, h)
    ensures Sorted([h] + t)
  {
    var r := [h] + t;
    forall i, j | 0 <= i < j < |r| ensures !Below(r[j], r[i]) {
      assert r[j] == t[j - 1];
      if i == 0 {
        assert t[j - 1] in multiset(t);
      } else {
        assert r[i] == t[i - 1];
      }
    }
  }

  function Insert(x: string, s: seq<string>): (r: seq<string>)
    requires Sorted(s)
    ensures Sorted(r)
    ensures multiset(r) == multiset(s) + multiset{x}
  {
    if s == [] then [x]
    else
      assert s == [s[0]] + s[1..];
      assert Sorted(s[1..]) by {
        forall i, j | 0 <= i < j < |s[1..]| ensures !Below(s[1..][j], s[1..][i]) {
          assert s[1..][j] == s[j + 1] && s[1..][i] == s[i + 1];
        }
      }
      if Below(s[0], x) then
        var rest := Insert(x, s[1..]);
        SortedHead(s);
        BelowAsymmetric(s[0], x);
        SortedCons(s[0], rest);
        [s[0]] + rest
      else
        forall y | y in multiset(s) ensures !Below(y, x) {
          if y != s[0] {
            assert y in multiset(s[1..]);
            SortedHead(s);
            BelowTotal(y, s[0]);
            if Below(y, x) {
              BelowTotal(s[0], x);
              BelowTransitive(s[0], y, x);
            }
          }
        }
        SortedCons(x, s);
        [x] + s
  }

  /** Ruby `a.sort` for an array of strings. */
  function Sort(s: seq<string>): (r: seq<string>)
    ensures Sorted(r)
    ensures multiset(r) == multiset(s)
  {
    if s == [] then []
    else
      assert s == [s[0]] + s[1..];
      Insert(s[0], Sort(s[1..]))
  }
}
