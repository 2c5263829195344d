/** The parts of Go's `strings` and `strconv` packages that the scraper relies on,
    stated for a one-character separator or a set of cut characters, which is
    how the scraper calls them. */
module GoStrings {

  /** Number of occurrences of `c` in `s` (`strings.Count` with a one-character separator). */
  function Count(s: string, c: char): nat
    decreases |s|
  {
    if |s| == 0 then 0 else (if s[0] == c then 1 else 0) + Count(s[1..], c)
  }

  /** `strings.HasSuffix`: `s` is some text followed by `suffix`. */
  predicate HasSuffix(s: string, suffix: string): (b: bool)
    ensures b <==> exists prefix :: prefix + suffix == s
  {
    assert |suffix| <= |s| ==> s[..|s| - |suffix|] + s[|s| - |suffix|..] == s;
    |suffix| <= |s| && s[|s| - |suffix|..] == suffix
  }

  // ---------------------------------------------------------------------------
  // strings.Split and its inverse
  // ---------------------------------------------------------------------------

  /** `strings.Split(s, string(sep))`: n separators give n + 1 pieces (so the
      empty string gives one empty piece), and no piece holds the separator. */
  function Split(s: string, sep: char): (pieces: seq<string>)
    ensures |pieces| == Count(s, sep) + 1
    ensures forall i :: 0 <= i < |pieces| ==> sep !in pieces[i]
    decreases |s|
  {
    if |s| == 0 then [""]
    else
      var rest := Split(s[1..], sep);
      if s[0] == sep then [""] + rest
      else [[s[0]] + rest[0]] + rest[1..]
  }

  /** `strings.Join(pieces, string(sep))`, the reference inverse of Split. */
  function Join(pieces: seq<string>, sep: char): string
    decreases |pieces|
  {
    if |pieces| == 0 then ""
    else if |pieces| == 1 then pieces[0]
    else pieces[0] + [sep] + Join(pieces[1..], sep)
  }

  /** Joining the pieces with the separator gives back the original string. */
  lemma {:induction false} SplitThenJoin(s: string, sep: char)
    ensures Join(Split(s, sep), sep) == s
    decreases |s|
  {
    if |s| > 0 {
      var rest := Split(s[1..], sep);
      SplitThenJoin(s[1..], sep);
      if s[0] == sep {
        assert Split(s, sep) == [""] + rest;
        assert ([""] + rest)[1..] == rest;
        assert s == [sep] + s[1..];
      } else {
        var pieces := Split(s, sep);
        assert pieces == [[s[0]] + rest[0]] + rest[1..];
        if |rest| == 1 {
          assert pieces == [[s[0]] + rest[0]];
          assert s == [s[0]] + s[1..];
        } else {
          assert pieces[1..] == rest[1..];
          assert Join(rest, sep) == rest[0] + [sep] + Join(rest[1..], sep);
          assert s == [s[0]] + s[1..];
        }
      }
    }
  }

  /** A string without the separator is a single piece. */
  lemma {:induction false} SplitWithoutSeparator(s: string, sep: char)
    requires sep !in s
    ensures Split(s, sep) == [s]
    decreases |s|
  {
    if |s| > 0 {
      assert sep !in s[1..] by {
        forall k | 0 <= k < |s| - 1 ensures s[1..][k] != sep {
          assert s[1..][k] == s[k + 1];
        }
      }
      SplitWithoutSeparator(s[1..], sep);
      assert [s[0]] + s[1..] == s;
    }
  }

  /** Split of a string given as its first character and the rest. */
  lemma SplitCons(c: char, t: string, sep: char)
    ensures var rest := Split(t, sep);
      Split([c] + t, sep) == if c == sep then [""] + rest else [[c] + rest[0]] + rest[1..]
  {
    assert ([c] + t)[0] == c;
    assert ([c] + t)[1..] == t;
  }

  /** Splitting at one occurrence of the separator splits the pieces there. */
  lemma {:induction false} SplitAppend(a: string, b: string, sep: char)
    ensures Split(a + [sep] + b, sep) == Split(a, sep) + Split(b, sep)
    decreases |a|
  {
    if |a| == 0 {
      assert a + [sep] + b == [sep] + b;
      SplitCons(sep, b, sep);
    } else {
      SplitAppend(a[1..], b, sep);
      SplitAppendStep(a[0], a[1..], b, sep);
      assert [a[0]] + a[1..] == a;
    }
  }

  /** The inductive step of SplitAppend: put one more character in front. */
  lemma SplitAppendStep(c: char, a: string, b: string, sep: char)
    requires Split(a + [sep] + b, sep) == Split(a, sep) + Split(b, sep)
    ensures Split([c] + a + [sep] + b, sep) == Split([c] + a, sep) + Split(b, sep)
  {
    var t := a + [sep] + b;
    assert [c] + a + [sep] + b == [c] + t;
    SplitCons(c, t, sep);
    SplitCons(c, a, sep);
    if c == sep {
      ConsPieceAssoc(Split(a, sep), Split(b, sep));
    } else {
      ExtendPieceAssoc([c], Split(a, sep), Split(b, sep));
    }
  }

  /* The two regroupings below are stated on their own so that the solver
     meets them in a small context; inside SplitAppendStep they are costly. */

  lemma ConsPieceAssoc(left: seq<string>, right: seq<string>)
    ensures [""] + (left + right) == ([""] + left) + right
  {
  }

  lemma ExtendPieceAssoc(prefix: string, left: seq<string>, right: seq<string>)
    requires |left| >= 1
    ensures var rest := left + right;
      [prefix + rest[0]] + rest[1..] == ([prefix + left[0]] + left[1..]) + right
  {
    var rest := left + right;
    assert rest[0] == left[0];
    assert rest[1..] == left[1..] + right;
  }

  /** Splitting a join of separator-free pieces gives back the pieces. */
  lemma {:induction false} JoinThenSplit(pieces: seq<string>, sep: char)
    requires |pieces| >= 1
    requires forall i :: 0 <= i < |pieces| ==> sep !in pieces[i]
    ensures Split(Join(pieces, sep), sep) == pieces
    decreases |pieces|
  {
    if |pieces| == 1 {
      SplitWithoutSeparator(pieces[0], sep);
    } else {
      JoinThenSplit(pieces[1..], sep);
      SplitAppend(pieces[0], Join(pieces[1..], sep), sep);
      SplitWithoutSeparator(pieces[0], sep);
      assert [pieces[0]] + pieces[1..] == pieces;
    }
  }

  /** Two separator-free segments, each followed by the separator, become the
      first two pieces. */
  lemma SplitTwoSegments(a: string, b: string, rest: string, sep: char)
    requires sep !in a && sep !in b
    ensures Split(a + [sep] + b + [sep] + rest, sep) == [a, b] + Split(rest, sep)
  {
    assert a + [sep] + b + [sep] + rest == a + [sep] + (b + [sep] + rest);
    SplitAppend(a, b + [sep] + rest, sep);
    SplitAppend(b, rest, sep);
    SplitWithoutSeparator(a, sep);
    SplitWithoutSeparator(b, sep);
  }

  /** A separator-free prefix that ends the string or is followed by the
      separator is the first piece. */
  lemma SplitFirstPiece(c: string, d: string, sep: char)
    requires sep !in c
    requires d == [] || d[0] == sep
    ensures Split(c + d, sep)[0] == c
  {
    SplitWithoutSeparator(c, sep);
    if d == [] {
      assert c + d == c;
    } else {
      assert c + d == c + [sep] + d[1..];
      SplitAppend(c, d[1..], sep);
    }
  }

  /** The first piece is the longest separator-free prefix of `s`: it is a
      prefix, and it is followed by the separator unless it is all of `s`. */
  lemma SplitHead(s: string, sep: char)
    ensures var head := Split(s, sep)[0];
      |head| <= |s| && s[..|head|] == head && (|head| < |s| ==> s[|head|] == sep)
  {
    var pieces := Split(s, sep);
    SplitThenJoin(s, sep);
    if |pieces| > 1 {
      assert s == pieces[0] + [sep] + Join(pieces[1..], sep);
      assert s[..|pieces[0]|] == pieces[0];
    }
  }

  // ---------------------------------------------------------------------------
  // strings.TrimLeft, strings.TrimRight, strings.Trim with a cutset
  // ---------------------------------------------------------------------------

  /** `strings.TrimLeft(s, cutset)`: drops every leading character in the cutset. */
  function TrimLeft(s: string, cutset: set<char>): (r: string)
    ensures |r| <= |s| && r == s[|s| - |r|..]
    ensures forall k :: 0 <= k < |s| - |r| ==> s[k] in cutset
    ensures r == [] || r[0] !in cutset
    decreases |s|
  {
    if |s| > 0 && s[0] in cutset then TrimLeft(s[1..], cutset) else s
  }

  /** `strings.TrimRight(s, cutset)`: drops every trailing character in the cutset. */
  function TrimRight(s: string, cutset: set<char>): (r: string)
    ensures |r| <= |s| && r == s[..|r|]
    ensures forall k :: |r| <= k < |s| ==> s[k] in cutset
    ensures r == [] || r[|r| - 1] !in cutset
    decreases |s|
  {
    if |s| > 0 && s[|s| - 1] in cutset then TrimRight(s[..|s| - 1], cutset) else s
  }

  /** `strings.Trim(s, cutset)`: what is left after dropping every leading and
      every trailing character in the cutset; the dropped prefix starts at 0,
      the result is the contiguous run after it, and the rest was dropped. */
  function Trim(s: string, cutset: set<char>): (r: string)
    ensures var n := |s| - |TrimLeft(s, cutset)|;
      n + |r| <= |s| && r == s[n..n + |r|]
      && (forall k :: 0 <= k < n ==> s[k] in cutset)
      && (forall k :: n + |r| <= k < |s| ==> s[k] in cutset)
    ensures r == [] || (r[0] !in cutset && r[|r| - 1] !in cutset)
  {
    TrimRight(TrimLeft(s, cutset), cutset)
  }

  lemma {:induction false} TrimLeftSkipsCut(p: string, t: string, cutset: set<char>)
    requires forall k :: 0 <= k < |p| ==> p[k] in cutset
    ensures TrimLeft(p + t, cutset) == TrimLeft(t, cutset)
    decreases |p|
  {
    if |p| > 0 {
      assert (p + t)[0] == p[0];
      assert (p + t)[1..] == p[1..] + t;
      TrimLeftSkipsCut(p[1..], t, cutset);
    } else {
      assert p + t == t;
    }
  }

  lemma {:induction false} TrimRightSkipsCut(t: string, q: string, cutset: set<char>)
    requires forall k :: 0 <= k < |q| ==> q[k] in cutset
    ensures TrimRight(t + q, cutset) == TrimRight(t, cutset)
    decreases |q|
  {
    if |q| > 0 {
      var s := t + q;
      assert s[|s| - 1] == q[|q| - 1];
      assert s[..|s| - 1] == t + q[..|q| - 1];
      TrimRightSkipsCut(t, q[..|q| - 1], cutset);
    } else {
      assert t + q == t;
    }
  }

  /** Trim removes exactly the cutset characters around the middle and nothing
      else: whenever `s` is a middle part that neither starts nor ends with a
      cutset character, wrapped in cutset characters, Trim gives that middle. */
  lemma TrimExact(p: string, m: string, q: string, cutset: set<char>)
    requires forall k :: 0 <= k < |p| ==> p[k] in cutset
    requires forall k :: 0 <= k < |q| ==> q[k] in cutset
    requires m == [] || (m[0] !in cutset && m[|m| - 1] !in cutset)
    ensures Trim(p + m + q, cutset) == m
  {
    assert p + m + q == p + (m + q);
    TrimLeftSkipsCut(p, m + q, cutset);
    if m == [] {
      assert m + q == q + [];
      TrimLeftSkipsCut(q, [], cutset);
    } else {
      assert (m + q)[0] == m[0];
      TrimRightSkipsCut(m, q, cutset);
    }
  }

  /** Trimming twice is trimming once. */
  lemma TrimIdempotent(s: string, cutset: set<char>)
    ensures Trim(Trim(s, cutset), cutset) == Trim(s, cutset)
  {
    var r := Trim(s, cutset);
    TrimExact([], r, [], cutset);
    assert [] + r + [] == r;
  }

  // ---------------------------------------------------------------------------
  // strconv.Itoa for the non-negative ranks, and decimal parsing as its inverse
  // ---------------------------------------------------------------------------

  predicate IsDigit(c: char)
  {
    '0' <= c <= '9'
  }

  function DigitChar(d: nat): char
    requires d < 10
  {
    (('0' as int) + d) as char
  }

  function DigitValue(c: char): nat
    requires IsDigit(c)
  {
    (c as int) - ('0' as int)
  }

  /** `strconv.Itoa(n)` for n >= 0: the decimal digits, without leading zeros. */
  function Itoa(n: nat): (s: string)
    ensures |s| >= 1 && forall k :: 0 <= k < |s| ==> IsDigit(s[k])
    ensures |s| > 1 ==> s[0] != '0'
    decreases n
  {
    if n < 10 then [DigitChar(n)] else Itoa(n / 10) + [DigitChar(n % 10)]
  }

  /** Reading a string of decimal digits as a number (`strconv.Atoi` on digits). */
  function ParseDecimal(s: string): nat
    requires forall k :: 0 <= k < |s| ==> IsDigit(s[k])
    decreases |s|
  {
    if |s| == 0 then 0
    else ParseDecimal(s[..|s| - 1]) * 10 + DigitValue(s[|s| - 1])
  }

  /** Itoa loses nothing: reading its digits back gives the number. */
  lemma {:induction false} ParseItoa(n: nat)
    ensures ParseDecimal(Itoa(n)) == n
    decreases n
  {
    var s := Itoa(n);
    if n >= 10 {
      ParseItoa(n / 10);
      assert s[..|s| - 1] == Itoa(n / 10);
    }
  }

  /** Different numbers are written differently. */
  lemma ItoaInjective(m: nat, n: nat)
    ensures Itoa(m) == Itoa(n) <==> m == n
  {
    ParseItoa(m);
    ParseItoa(n);
  }
}
