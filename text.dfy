/**
 * The Python string built-ins the application relies on: `str.strip()`,
 * `sep.join(parts)`, `marker in s` and `s.split(marker, 1)` (modelled by
 * `Find`; the slice is taken in `Response.Format`),
 * `s.splitlines()` and `str(n)` for integers.
 */
module Text {
  import opened Wrappers

  /** The characters for which Python's `str.isspace()` holds, the ones `str.strip()` removes. */
  predicate IsSpace(c: char) {
    ('\t' <= c <= '\r') || ('\U{1C}' <= c <= '\U{1F}') || c == ' ' ||
    c == '\U{85}' || c == '\U{A0}' || c == '\U{1680}' ||
    ('\U{2000}' <= c <= '\U{200A}') || c == '\U{2028}' || c == '\U{2029}' ||
    c == '\U{202F}' || c == '\U{205F}' || c == '\U{3000}'
  }

  /** `s.lstrip()`: drops the leading whitespace and nothing else. */
  function TrimStart(s: string): (r: string)
    ensures |r| <= |s| && r == s[|s| - |r|..]
    ensures forall i :: 0 <= i < |s| - |r| ==> IsSpace(s[i])
    ensures r == [] || !IsSpace(r[0])
  {
    if s != [] && IsSpace(s[0]) then TrimStart(s[1..]) else s
  }

  /** `s.rstrip()`: drops the trailing whitespace and nothing else. */
  function TrimEnd(s: string): (r: string)
    ensures |r| <= |s| && r == s[..|r|]
    ensures forall i :: |r| <= i < |s| ==> IsSpace(s[i])
    ensures r == [] || !IsSpace(r[|r| - 1])
  {
    if s != [] && IsSpace(s[|s| - 1]) then TrimEnd(s[..|s| - 1]) else s
  }

  /**
   * `s.strip()`: the infix of `s` left after removing the whitespace at
   * both ends; what is dropped is whitespace only, and what is kept
   * neither begins nor ends with whitespace.
   */
  function Strip(s: string): (r: string)
    ensures var lead := |s| - |TrimStart(s)|;
      lead + |r| <= |s| && r == s[lead..lead + |r|] &&
      (forall i :: 0 <= i < lead ==> IsSpace(s[i])) &&
      (forall i :: lead + |r| <= i < |s| ==> IsSpace(s[i]))
    ensures r == [] || (!IsSpace(r[0]) && !IsSpace(r[|r| - 1]))
  {
    var t := TrimStart(s);
    var r := TrimEnd(t);
    InfixOfSuffix(s, t, r);
    r
  }

  /** A prefix `r` of the suffix `t` of `s` is an infix of `s`, and their characters line up. */
  lemma InfixOfSuffix<T>(s: seq<T>, t: seq<T>, r: seq<T>)
    requires |t| <= |s| && t == s[|s| - |t|..]
    requires |r| <= |t| && r == t[..|r|]
    ensures var lead := |s| - |t|;
      lead + |r| <= |s| && r == s[lead..lead + |r|] &&
      (forall i :: lead + |r| <= i < |s| ==> s[i] == t[i - lead]) &&
      (r != [] ==> r[0] == t[0])
  {
  }

  /** Stripping twice changes nothing more. */
  lemma StripIdempotent(s: string)
    ensures Strip(Strip(s)) == Strip(s)
  {
    var r := Strip(s);
    assert TrimStart(r) == r;
    assert TrimEnd(r) == r;
  }

  /**
   * A text that starts with a non-space character and ends in a single
   * space preceded by a non-space loses exactly that final space.
   */
  lemma StripDropsFinalSpace(s: string)
    requires |s| >= 2 && !IsSpace(s[0]) && IsSpace(s[|s| - 1]) && !IsSpace(s[|s| - 2])
    ensures Strip(s) == s[..|s| - 1]
  {
    assert TrimStart(s) == s;
    var u := s[..|s| - 1];
    assert u[|u| - 1] == s[|s| - 2];
    assert TrimEnd(u) == u;
  }

  /** Putting back, after a text stripped of its final space, the space it lost. */
  lemma ReattachFinalSpace(before: string, s: string, after: string, rest: string)
    requires |s| >= 1 && s[|s| - 1] == ' '
    ensures before + s[..|s| - 1] + " " + after + rest == before + s + after + rest
  {
    assert s[..|s| - 1] + " " == s;
  }

  /** `sep.join(parts)`. */
  function Join(sep: string, parts: seq<string>): (r: string)
    ensures |parts| == 1 ==> r == parts[0]
    ensures |parts| == 0 ==> r == ""
  {
    if |parts| == 0 then ""
    else if |parts| == 1 then parts[0]
    else parts[0] + sep + Join(sep, parts[1..])
  }

  /** A join of at least one part starts with the first part and ends with the last. */
  lemma {:induction false} JoinEnds(sep: string, parts: seq<string>)
    requires |parts| >= 1
    ensures var j := Join(sep, parts); var f, l := parts[0], parts[|parts| - 1];
      |f| <= |j| && j[..|f|] == f && |l| <= |j| && j[|j| - |l|..] == l
  {
    if |parts| > 1 {
      JoinEnds(sep, parts[1..]);
    }
  }

  /** `s.split(c)` for a single-character separator: always at least one piece, none containing `c`. */
  function Split(s: string, c: char): (r: seq<string>)
    ensures |r| >= 1
    ensures forall i :: 0 <= i < |r| ==> c !in r[i]
  {
    if s == [] then [""]
    else
      var rest := Split(s[1..], c);
      if s[0] == c then [""] + rest
      else [[s[0]] + rest[0]] + rest[1..]
  }

  /** Joining the pieces of a split with the separator gives back the text. */
  lemma {:induction false} JoinSplit(s: string, c: char)
    ensures Join([c], Split(s, c)) == s
  {
    if s != [] {
      var rest := Split(s[1..], c);
      JoinSplit(s[1..], c);
      if s[0] == c {
        assert Split(s, c) == [""] + rest;
        assert ([""] + rest)[1..] == rest;
      } else {
        var parts := [[s[0]] + rest[0]] + rest[1..];
        assert Split(s, c) == parts;
        if |rest| > 1 {
          assert parts[1..] == rest[1..];
          assert Join([c], rest) == rest[0] + [c] + Join([c], rest[1..]);
        }
        assert s == [s[0]] + s[1..];
      }
    }
  }

  /** Splitting a text with no separator in it gives that text alone. */
  lemma {:induction false} SplitWithoutSeparator(s: string, c: char)
    requires c !in s
    ensures Split(s, c) == [s]
  {
    if s != [] {
      SplitWithoutSeparator(s[1..], c);
      assert s == [s[0]] + s[1..];
    }
  }

  /** A separator directly after a separator-free prefix cuts exactly there. */
  lemma {:induction false} SplitAtFirstSeparator(a: string, c: char, b: string)
    requires c !in a
    ensures Split(a + [c] + b, c) == [a] + Split(b, c)
  {
    if a == [] {
      assert a + [c] + b == [c] + b;
      assert ([c] + b)[1..] == b;
    } else {
      var s := a + [c] + b;
      assert s[1..] == a[1..] + [c] + b;
      SplitAtFirstSeparator(a[1..], c, b);
      assert a == [a[0]] + a[1..];
    }
  }

  /** Splitting the join of separator-free pieces gives back the pieces. */
  lemma {:induction false} SplitJoin(parts: seq<string>, c: char)
    requires |parts| >= 1
    requires forall i :: 0 <= i < |parts| ==> c !in parts[i]
    ensures Split(Join([c], parts), c) == parts
  {
    if |parts| == 1 {
      SplitWithoutSeparator(parts[0], c);
    } else {
      SplitJoin(parts[1..], c);
      SplitAtFirstSeparator(parts[0], c, Join([c], parts[1..]));
      assert parts == [parts[0]] + parts[1..];
    }
  }

  /**
   * `s.splitlines()` restricted to the line feed: the pieces of the split,
   * without the empty piece a final line feed leaves behind.
   */
  function SplitLines(s: string): (r: seq<string>)
    ensures forall i :: 0 <= i < |r| ==> '\n' !in r[i]
    ensures s == "" ==> r == []
  {
    var pieces := Split(s, '\n');
    if pieces[|pieces| - 1] == "" then pieces[..|pieces| - 1] else pieces
  }

  /** Rejoining the lines restores the text, up to a final line feed. */
  lemma JoinSplitLines(s: string)
    ensures Join("\n", SplitLines(s)) + (if s != "" && s[|s| - 1] == '\n' then "\n" else "") == s
  {
    var pieces := Split(s, '\n');
    JoinSplit(s, '\n');
    if |pieces| == 1 && pieces[0] == "" {
      assert s == "";
    } else if pieces[|pieces| - 1] == "" {
      JoinDropLastEmpty(pieces, "\n");
      assert s == Join("\n", pieces[..|pieces| - 1]) + "\n";
    } else {
      assert s == Join("\n", pieces);
      if s != "" && s[|s| - 1] == '\n' {
        LastPieceAfterFinalSeparator(s, '\n');
      }
    }
  }

  /** Joining parts that end with an empty part is joining the rest and one more separator. */
  lemma {:induction false} JoinDropLastEmpty(parts: seq<string>, sep: string)
    requires |parts| >= 2 && parts[|parts| - 1] == ""
    ensures Join(sep, parts) == Join(sep, parts[..|parts| - 1]) + sep
  {
    if |parts| == 2 {
    } else {
      JoinDropLastEmpty(parts[1..], sep);
      assert parts[1..][..|parts| - 2] == parts[..|parts| - 1][1..];
    }
  }

  /** A text ending in the separator splits into pieces whose last one is empty. */
  lemma {:induction false} LastPieceAfterFinalSeparator(s: string, c: char)
    requires s != [] && s[|s| - 1] == c
    ensures var p := Split(s, c); p[|p| - 1] == ""
  {
    if |s| == 1 {
      assert Split(s[1..], c) == [""];
    } else {
      LastPieceAfterFinalSeparator(s[1..], c);
      var rest := Split(s[1..], c);
      if s[0] != c {
        assert |rest| >= 2 by {
          JoinSplit(s[1..], c);
        }
      }
    }
  }

  /** `m` occurs in `s` starting at index `i`. */
  predicate OccursAt(s: string, m: string, i: nat) {
    i + |m| <= |s| && s[i..i + |m|] == m
  }

  /** The first index at or after `from` where `m` occurs in `s`, if any. */
  function FindFrom(s: string, m: string, from: nat): (r: Option<nat>)
    ensures r.Some? ==>
      from <= r.value && OccursAt(s, m, r.value) &&
      forall j :: from <= j < r.value ==> !OccursAt(s, m, j)
    ensures r.None? ==> forall j :: from <= j ==> !OccursAt(s, m, j)
    decreases |s| - from
  {
    if from + |m| > |s| then None
    else if s[from..from + |m|] == m then Some(from)
    else FindFrom(s, m, from + 1)
  }

  /** The first occurrence of `m` in `s` (`s.find(m)`, with None for -1). */
  function Find(s: string, m: string): (r: Option<nat>)
    ensures r.Some? ==> OccursAt(s, m, r.value) && forall j :: 0 <= j < r.value ==> !OccursAt(s, m, j)
    ensures r.None? ==> forall j :: 0 <= j ==> !OccursAt(s, m, j)
  {
    FindFrom(s, m, 0)
  }

  /** Python's `m in s`. */
  predicate Contains(s: string, m: string) {
    Find(s, m).Some?
  }

  /** The decimal digit character for `d`. */
  function DigitChar(d: nat): (c: char)
    requires d < 10
    ensures '0' <= c <= '9'
  {
    (48 + d) as char
  }

  /** The value of a decimal digit character. */
  function DigitValue(c: char): nat
    requires '0' <= c <= '9'
  {
    c as nat - 48
  }

  /** Every character of `s` is a decimal digit. */
  predicate IsDigits(s: string) {
    forall i :: 0 <= i < |s| ==> '0' <= s[i] <= '9'
  }

  /** Decimal rendering of a natural number, without leading zeros. */
  function NatToString(n: nat): (r: string)
    ensures |r| >= 1 && IsDigits(r)
    ensures |r| > 1 ==> r[0] != '0'
    decreases n
  {
    if n < 10 then [DigitChar(n)] else NatToString(n / 10) + [DigitChar(n % 10)]
  }

  /** The number a string of decimal digits denotes. */
  function DecimalValue(s: string): nat
    requires IsDigits(s)
  {
    if s == [] then 0 else 10 * DecimalValue(s[..|s| - 1]) + DigitValue(s[|s| - 1])
  }

  /** Reading back a rendered natural number gives the number. */
  lemma {:induction false} NatToStringRoundTrip(n: nat)
    ensures DecimalValue(NatToString(n)) == n
    decreases n
  {
    if n >= 10 {
      NatToStringRoundTrip(n / 10);
      var r := NatToString(n);
      assert r[..|r| - 1] == NatToString(n / 10);
    }
  }

  /**
   * Python's `str(n)` for an integer: a minus sign for negative numbers,
   * then the digits of the magnitude, without leading zeros, which read
   * back as that magnitude.
   */
  function IntToString(n: int): (r: string)
    ensures |r| >= 1
    ensures n < 0 <==> r[0] == '-'
    ensures n >= 0 ==> IsDigits(r) && DecimalValue(r) == n
    ensures n < 0 ==> IsDigits(r[1..]) && DecimalValue(r[1..]) == -n
    ensures n >= 0 && |r| > 1 ==> r[0] != '0'
    ensures n < 0 ==> |r| >= 2 && r[1] != '0'
  {
    if n < 0 then
      NatToStringRoundTrip(-n);
      assert ("-" + NatToString(-n))[1..] == NatToString(-n);
      "-" + NatToString(-n)
    else
      NatToStringRoundTrip(n);
      NatToString(n)
  }
}
