/** The handful of Python `str` operations the tracker relies on, over `seq<char>`:
    `strip()`, `split(sep)`, `split()` and `int(s)`.  Whitespace is Python's
    `str.isspace` (less the four information separators, for `int`); digits
    are ASCII. */
module Text {
  import opened Wrappers

  /** Python's `str.isspace` for a single character. */
  predicate IsSpace(c: char) {
    || ('\t' <= c <= '\r')
    || ('\U{1c}' <= c <= '\U{1f}')
    || c == ' ' || c == '\U{85}' || c == '\U{a0}' || c == '\U{1680}'
    || ('\U{2000}' <= c <= '\U{200a}')
    || c == '\U{2028}' || c == '\U{2029}' || c == '\U{202f}' || c == '\U{205f}' || c == '\U{3000}'
  }

  predicate IsDigit(c: char) {
    '0' <= c <= '9'
  }

  predicate AllDigits(s: string) {
    forall k :: 0 <= k < |s| ==> IsDigit(s[k])
  }

  predicate AllSpace(s: string) {
    forall k :: 0 <= k < |s| ==> IsSpace(s[k])
  }

  predicate NoSpace(s: string) {
    forall k :: 0 <= k < |s| ==> !IsSpace(s[k])
  }

  /** A whitespace-separated token: what `str.split()` can produce. */
  predicate IsToken(s: string) {
    |s| > 0 && NoSpace(s)
  }

  // ---------------------------------------------------------------------------
  // strip()
  // ---------------------------------------------------------------------------

  /** Python's `s.lstrip()`: the suffix left after dropping leading whitespace. */
  function StripLeft(s: string): (r: string)
    ensures |r| <= |s| && r == s[|s| - |r|..]
    ensures AllSpace(s[..|s| - |r|])
    ensures r == [] || !IsSpace(r[0])
  {
    if |s| > 0 && IsSpace(s[0]) then
      var r := StripLeft(s[1..]);
      assert forall k :: 0 < k < |s| - |r| ==> s[k] == s[1..][..|s| - 1 - |r|][k - 1];
      r
    else s
  }

  /** Python's `s.rstrip()`: the prefix left after dropping trailing whitespace. */
  function StripRight(s: string): (r: string)
    ensures |r| <= |s| && r == s[..|r|]
    ensures AllSpace(s[|r|..])
    ensures r == [] || !IsSpace(r[|r| - 1])
  {
    if |s| > 0 && IsSpace(s[|s| - 1]) then
      var r := StripRight(s[..|s| - 1]);
      assert forall k :: |r| <= k < |s| - 1 ==> s[k] == s[..|s| - 1][|r|..][k - |r|];
      r
    else s
  }

  /** Python's `s.strip()`: the slice of `s` left after dropping its leading and its
      trailing whitespace; it neither starts nor ends with whitespace. */
  function Strip(s: string): (r: string)
    ensures |r| <= |StripLeft(s)| <= |s|
    ensures r == s[|s| - |StripLeft(s)|..][..|r|]
    ensures r == [] || (!IsSpace(r[0]) && !IsSpace(r[|r| - 1]))
    ensures AllSpace(s[..|s| - |StripLeft(s)|]) && AllSpace(s[|s| - |StripLeft(s)| + |r|..])
  {
    var l := StripLeft(s);
    var r := StripRight(l);
    SpaceAfterSuffix(s, l, |r|);
    r
  }

  /** Whitespace after `n` characters of a suffix is whitespace of the text. */
  lemma SpaceAfterSuffix(s: string, l: string, n: nat)
    requires |l| <= |s| && l == s[|s| - |l|..] && n <= |l| && AllSpace(l[n..])
    ensures AllSpace(s[|s| - |l| + n..])
  {
    assert s[|s| - |l| + n..] == l[n..];
  }

  /** Stripping a string wrapped in whitespace gives back its core. */
  lemma {:induction false} StripAround(lead: string, core: string, trail: string)
    requires AllSpace(lead) && AllSpace(trail)
    requires |core| > 0 && !IsSpace(core[0]) && !IsSpace(core[|core| - 1])
    ensures Strip(lead + core + trail) == core
  {
    assert lead + core + trail == lead + (core + trail);
    StripLeftAround(lead, core + trail);
    StripRightAround(core, trail);
  }

  lemma {:induction false} StripLeftAround(lead: string, rest: string)
    requires AllSpace(lead)
    requires |rest| > 0 && !IsSpace(rest[0])
    ensures StripLeft(lead + rest) == rest
  {
    if lead != [] {
      assert (lead + rest)[1..] == lead[1..] + rest;
      StripLeftAround(lead[1..], rest);
    }
  }

  lemma {:induction false} StripRightAround(rest: string, trail: string)
    requires AllSpace(trail)
    requires |rest| > 0 && !IsSpace(rest[|rest| - 1])
    ensures StripRight(rest + trail) == rest
  {
    if trail != [] {
      var t := trail[..|trail| - 1];
      assert (rest + trail)[..|rest + trail| - 1] == rest + t;
      StripRightAround(rest, t);
    }
  }

  /** A string that neither starts nor ends with whitespace is its own strip. */
  lemma StripUnchanged(s: string)
    requires |s| > 0 && !IsSpace(s[0]) && !IsSpace(s[|s| - 1])
    ensures Strip(s) == s
  {
    assert [] + s + [] == s;
    StripAround([], s, []);
  }

  // ---------------------------------------------------------------------------
  // sep.join(parts) and s.split(sep)
  // ---------------------------------------------------------------------------

  /** Python's `sep.join(parts)` for a one-character separator. */
  function Join(parts: seq<string>, sep: char): string {
    if |parts| == 0 then []
    else if |parts| == 1 then parts[0]
    else parts[0] + [sep] + Join(parts[1..], sep)
  }

  /** Python's `s.split(sep)` for a one-character separator: never empty, no piece
      contains the separator, and joining the pieces gives `s` back. */
  function Split(s: string, sep: char): (r: seq<string>)
    ensures |r| >= 1
    ensures forall k :: 0 <= k < |r| ==> sep !in r[k]
    ensures Join(r, sep) == s
  {
    if s == [] then [[]]
    else
      var rest := Split(s[1..], sep);
      if s[0] == sep then
        assert ([[]] + rest)[1..] == rest;
        [[]] + rest
      else
        var r := [[s[0]] + rest[0]] + rest[1..];
        assert |rest| > 1 ==> r[1..] == rest[1..];
        r
  }

  lemma {:induction false} SplitNoSeparator(s: string, sep: char)
    requires sep !in s
    ensures Split(s, sep) == [s]
  {
    if s != [] {
      assert sep !in s[1..] by {
        forall k | 0 <= k < |s[1..]| ensures s[1..][k] != sep {
          assert s[1..][k] == s[k + 1];
        }
      }
      SplitNoSeparator(s[1..], sep);
      assert [s[0]] + s[1..] == s;
    }
  }

  lemma {:induction false} SplitFirstPiece(a: string, sep: char, t: string)
    requires sep !in a
    ensures Split(a + [sep] + t, sep) == [a] + Split(t, sep)
  {
    if a == [] {
      assert a + [sep] + t == [sep] + t;
      assert ([sep] + t)[1..] == t;
    } else {
      assert (a + [sep] + t)[1..] == a[1..] + [sep] + t;
      assert sep !in a[1..] by {
        forall k | 0 <= k < |a[1..]| ensures a[1..][k] != sep {
          assert a[1..][k] == a[k + 1];
        }
      }
      SplitFirstPiece(a[1..], sep, t);
      assert [a[0]] + a[1..] == a;
    }
  }

  /** `split` inverts `join` on separator-free pieces. */
  lemma {:induction false} SplitJoin(parts: seq<string>, sep: char)
    requires |parts| >= 1
    requires forall k :: 0 <= k < |parts| ==> sep !in parts[k]
    ensures Split(Join(parts, sep), sep) == parts
  {
    if |parts| == 1 {
      SplitNoSeparator(parts[0], sep);
    } else {
      SplitJoin(parts[1..], sep);
      SplitFirstPiece(parts[0], sep, Join(parts[1..], sep));
      assert [parts[0]] + parts[1..] == parts;
    }
  }

  /** A character that is not the separator and occurs in no part does not occur
      in the joined string. */
  lemma {:induction false} JoinAvoids(parts: seq<string>, sep: char, c: char)
    requires c != sep
    requires forall k :: 0 <= k < |parts| ==> c !in parts[k]
    ensures c !in Join(parts, sep)
  {
    if |parts| > 1 {
      JoinAvoids(parts[1..], sep, c);
    }
  }

  /** The pieces of a split never contain a character the whole string lacks. */
  lemma {:induction false} SplitPiecesAvoid(s: string, sep: char, c: char)
    ensures c !in s ==> forall k :: 0 <= k < |Split(s, sep)| ==> c !in Split(s, sep)[k]
  {
    if s != [] && c !in s {
      assert c !in s[1..] by {
        forall k | 0 <= k < |s[1..]| ensures s[1..][k] != c {
          assert s[1..][k] == s[k + 1];
        }
      }
      SplitPiecesAvoid(s[1..], sep, c);
    }
  }

  /** The first and last characters of a join come from the first and last parts. */
  lemma {:induction false} JoinEdges(parts: seq<string>, sep: char)
    requires |parts| >= 1
    requires forall k :: 0 <= k < |parts| ==> |parts[k]| > 0
    ensures |Join(parts, sep)| > 0
    ensures Join(parts, sep)[0] == parts[0][0]
    ensures var j := Join(parts, sep); var l := parts[|parts| - 1]; j[|j| - 1] == l[|l| - 1]
  {
    if |parts| > 1 {
      JoinEdges(parts[1..], sep);
    }
  }

  // ---------------------------------------------------------------------------
  // s.split() (no argument)
  // ---------------------------------------------------------------------------

  /** Python's `s.split()`: the maximal runs of non-whitespace characters, in order. */
  function SplitWs(s: string): (r: seq<string>)
    ensures forall k :: 0 <= k < |r| ==> IsToken(r[k])
    ensures |s| > 0 && !IsSpace(s[0]) ==> |r| > 0 && |r[0]| > 0 && r[0][0] == s[0]
    ensures r == [] <==> AllSpace(s)
  {
    if s == [] then []
    else
      var rest := SplitWs(s[1..]);
      assert AllSpace(s) <==> IsSpace(s[0]) && AllSpace(s[1..]) by {
        assert forall k :: 1 <= k < |s| ==> s[k] == s[1..][k - 1];
      }
      if IsSpace(s[0]) then rest
      else if |s| > 1 && !IsSpace(s[1]) then
        assert s[1..][0] == s[1];
        var r := [[s[0]] + rest[0]] + rest[1..];
        assert forall k :: 1 <= k < |r| ==> r[k] == rest[k];
        r
      else [[s[0]]] + rest
  }

  lemma {:induction false} SplitWsSingle(a: string)
    requires IsToken(a)
    ensures SplitWs(a) == [a]
  {
    if |a| == 1 {
      assert a[1..] == [];
      assert a == [a[0]];
    } else {
      assert a[1..][0] == a[1];
      SplitWsSingle(a[1..]);
      assert [a[0]] + a[1..] == a;
    }
  }

  /** Whitespace before the first field starts no field: `split()` skips it. */
  lemma {:induction false} SplitWsSpaces(w: string, t: string)
    requires AllSpace(w)
    ensures SplitWs(w + t) == SplitWs(t)
  {
    if w == [] {
      assert w + t == t;
    } else {
      assert (w + t)[0] == w[0] && IsSpace(w[0]);
      assert (w + t)[1..] == w[1..] + t;
      assert forall k :: 0 <= k < |w| - 1 ==> w[1..][k] == w[k + 1];
      SplitWsSpaces(w[1..], t);
    }
  }

  /** A token followed by whitespace is the first field, and the fields after it
      are those of the rest: with `SplitWsSpaces` and `SplitWs([]) == []` this
      determines `split()` on every string. */
  lemma {:induction false} SplitWsToken(a: string, w: string, t: string)
    requires IsToken(a) && |w| > 0 && AllSpace(w)
    ensures SplitWs(a + w + t) == [a] + SplitWs(t)
  {
    var s := a + w + t;
    if |a| == 1 {
      assert s[0] == a[0] && s[1] == w[0];
      assert s[1..] == w + t;
      SplitWsSpaces(w, t);
      assert a == [a[0]];
    } else {
      assert s[0] == a[0] && s[1] == a[1];
      assert s[1..] == a[1..] + w + t;
      SplitWsToken(a[1..], w, t);
      assert [a[0]] + a[1..] == a;
    }
  }

  /** A token followed by nothing but whitespace is the only field. */
  lemma SplitWsTokenEnd(a: string, w: string)
    requires IsToken(a) && AllSpace(w)
    ensures SplitWs(a + w) == [a]
  {
    if w == [] {
      assert a + w == a;
      SplitWsSingle(a);
    } else {
      assert a + w + [] == a + w;
      SplitWsToken(a, w, []);
    }
  }

  /** Fields separated by runs of whitespace: `fields[0] + gaps[0] + fields[1] + …`,
      the way a table pads its columns. */
  function Spaced(fields: seq<string>, gaps: seq<string>): string
    requires |fields| > 0 && |gaps| == |fields| - 1
  {
    if |fields| == 1 then fields[0] else fields[0] + gaps[0] + Spaced(fields[1..], gaps[1..])
  }

  /** Non-empty runs of whitespace. */
  predicate Separators(gaps: seq<string>) {
    forall k :: 0 <= k < |gaps| ==> |gaps[k]| > 0 && AllSpace(gaps[k])
  }

  predicate AllTokens(fields: seq<string>) {
    forall k :: 0 <= k < |fields| ==> IsToken(fields[k])
  }

  /** `split()` gives back the fields of a spaced line, whatever the separating
      runs and whatever whitespace surrounds the line. */
  lemma SplitWsSpaced(lead: string, fields: seq<string>, gaps: seq<string>, trail: string)
    requires |fields| > 0 && |gaps| == |fields| - 1
    requires AllSpace(lead) && AllSpace(trail) && Separators(gaps) && AllTokens(fields)
    ensures SplitWs(lead + Spaced(fields, gaps) + trail) == fields
  {
    var rest := Spaced(fields, gaps) + trail;
    SplitWsSpacedTrail(fields, gaps, trail);
    SplitWsSpaces(lead, rest);
    assert lead + Spaced(fields, gaps) + trail == lead + rest;
  }

  lemma {:induction false} SplitWsSpacedTrail(fields: seq<string>, gaps: seq<string>, trail: string)
    requires |fields| > 0 && |gaps| == |fields| - 1
    requires AllSpace(trail) && Separators(gaps) && AllTokens(fields)
    ensures SplitWs(Spaced(fields, gaps) + trail) == fields
  {
    if |fields| == 1 {
      SplitWsTokenEnd(fields[0], trail);
    } else {
      var rest := Spaced(fields[1..], gaps[1..]);
      assert Spaced(fields, gaps) + trail == fields[0] + gaps[0] + (rest + trail);
      SpacedTails(fields, gaps);
      SplitWsSpacedTrail(fields[1..], gaps[1..], trail);
      SplitWsToken(fields[0], gaps[0], rest + trail);
      assert [fields[0]] + fields[1..] == fields;
    }
  }

  lemma SpacedTails(fields: seq<string>, gaps: seq<string>)
    requires |fields| > 1 && |gaps| == |fields| - 1
    requires Separators(gaps) && AllTokens(fields)
    ensures Separators(gaps[1..]) && AllTokens(fields[1..])
    ensures IsToken(fields[0]) && |gaps[0]| > 0 && AllSpace(gaps[0])
  {
    assert forall k :: 0 <= k < |gaps| - 1 ==> gaps[1..][k] == gaps[k + 1];
    assert forall k :: 0 <= k < |fields| - 1 ==> fields[1..][k] == fields[k + 1];
  }

  /** A spaced line starts with its first field's first character and ends with
      its last field's last character. */
  lemma {:induction false} SpacedEdges(fields: seq<string>, gaps: seq<string>)
    requires |fields| > 0 && |gaps| == |fields| - 1
    requires forall k :: 0 <= k < |fields| ==> |fields[k]| > 0
    ensures var s := Spaced(fields, gaps); var l := fields[|fields| - 1];
            |s| > 0 && s[0] == fields[0][0] && s[|s| - 1] == l[|l| - 1]
  {
    if |fields| > 1 {
      var tail := fields[1..];
      assert forall k :: 0 <= k < |tail| ==> tail[k] == fields[k + 1];
      SpacedEdges(tail, gaps[1..]);
      var rest := Spaced(tail, gaps[1..]);
      var s := fields[0] + gaps[0] + rest;
      assert s[0] == fields[0][0] && s[|s| - 1] == rest[|rest| - 1];
    }
  }

  /** A character in no field and no gap is not in the spaced line. */
  lemma {:induction false} SpacedAvoids(fields: seq<string>, gaps: seq<string>, c: char)
    requires |fields| > 0 && |gaps| == |fields| - 1
    requires forall k :: 0 <= k < |fields| ==> c !in fields[k]
    requires forall k :: 0 <= k < |gaps| ==> c !in gaps[k]
    ensures c !in Spaced(fields, gaps)
  {
    if |fields| > 1 {
      assert forall k :: 0 <= k < |fields| - 1 ==> fields[1..][k] == fields[k + 1];
      assert forall k :: 0 <= k < |gaps| - 1 ==> gaps[1..][k] == gaps[k + 1];
      SpacedAvoids(fields[1..], gaps[1..], c);
    }
  }

  // ---------------------------------------------------------------------------
  // list.index(x)
  // ---------------------------------------------------------------------------

  /** Python's `xs.index(x)`: the first position holding `x`; `None` stands for the
      `ValueError` raised when there is none. */
  function IndexOf(xs: seq<string>, x: string): (r: Option<nat>)
    ensures r.Some? ==> r.value < |xs| && xs[r.value] == x && x !in xs[..r.value]
    ensures r.None? <==> x !in xs
  {
    if |xs| == 0 then None
    else if xs[0] == x then Some(0)
    else
      match IndexOf(xs[1..], x)
      case None => None
      case Some(i) =>
        assert xs[..i + 1] == [xs[0]] + xs[1..][..i];
        Some(i + 1)
  }

  // ---------------------------------------------------------------------------
  // int(s)
  // ---------------------------------------------------------------------------

  function DigitValue(c: char): nat
    requires IsDigit(c)
  {
    c as int - '0' as int
  }

  /** The value of a string of decimal digits (0 for the empty string). */
  function DigitsValue(ds: string): nat
    requires AllDigits(ds)
  {
    if |ds| == 0 then 0 else DigitsValue(ds[..|ds| - 1]) * 10 + DigitValue(ds[|ds| - 1])
  }

  /** The information separators U+001C to U+001F.  `str.isspace` counts them as
      whitespace, but `int` leaves every ASCII character as it is and then skips
      only tab through carriage return and the space, so for `int` they are
      neither whitespace nor digits. */
  predicate IsInfoSeparator(c: char) {
    '\U{1c}' <= c <= '\U{1f}'
  }

  predicate NoInfoSeparator(s: string) {
    forall k :: 0 <= k < |s| ==> !IsInfoSeparator(s[k])
  }

  /** Python's `int(s)` on a `str`: surrounding whitespace, an optional sign, then
      one or more digits.  `None` stands for the `ValueError` raised otherwise,
      which an information separator anywhere always causes.  A string without a
      minus sign never yields a negative number. */
  function ParseInt(s: string): (r: Option<int>)
    ensures r.Some? <==> NoInfoSeparator(s) && SignedDigits(Strip(s))
    ensures r.Some? && '-' !in s ==> r.value >= 0
  {
    if !NoInfoSeparator(s) then None
    else
      StripKeeps(s, '-');
      ParseStripped(Strip(s))
  }

  /** A character of the strip is a character of the text. */
  lemma StripKeeps(s: string, c: char)
    ensures c in Strip(s) ==> c in s
  {
    var t := Strip(s);
    if c in t {
      var i :| 0 <= i < |t| && t[i] == c;
      assert s[|s| - |StripLeft(s)| + i] == c;
    }
  }

  /** One or more digits, after at most one sign: the text `int` accepts once
      stripped. */
  predicate SignedDigits(t: string) {
    || (|t| > 0 && AllDigits(t))
    || (|t| > 1 && (t[0] == '+' || t[0] == '-') && AllDigits(t[1..]))
  }

  /** `int` on text that neither starts nor ends with whitespace. */
  function ParseStripped(t: string): (r: Option<int>)
    ensures r.Some? <==> SignedDigits(t)
    ensures r.Some? && '-' !in t ==> r.value >= 0
  {
    if |t| > 0 && (t[0] == '+' || t[0] == '-') then
      var ds := t[1..];
      if |ds| > 0 && AllDigits(ds) then
        if t[0] == '-' then Some(-(DigitsValue(ds) as int))
        else Some(DigitsValue(ds))
      else None
    else if |t| > 0 && AllDigits(t) then Some(DigitsValue(t))
    else None
  }

  /** `int` accepts digits wrapped in whitespace and reads them in base ten. */
  lemma ParseIntAccepts(lead: string, ds: string, trail: string)
    requires AllSpace(lead) && AllSpace(trail) && NoInfoSeparator(lead) && NoInfoSeparator(trail)
    requires |ds| > 0 && AllDigits(ds)
    ensures ParseInt(lead + ds + trail) == Some(DigitsValue(ds))
  {
    assert IsDigit(ds[0]) && IsDigit(ds[|ds| - 1]);
    NoInfoSeparatorJoin(lead, ds, trail);
    StripAround(lead, ds, trail);
    ParseIntOfStripped(lead + ds + trail, ds);
  }

  /** `int` accepts one sign before the digits, and a minus sign negates. */
  lemma ParseIntAcceptsSigned(lead: string, sign: char, ds: string, trail: string)
    requires AllSpace(lead) && AllSpace(trail) && NoInfoSeparator(lead) && NoInfoSeparator(trail)
    requires sign == '+' || sign == '-'
    requires |ds| > 0 && AllDigits(ds)
    ensures var v: int := DigitsValue(ds);
            ParseInt(lead + [sign] + ds + trail) == Some(if sign == '-' then -v else v)
  {
    var core := [sign] + ds;
    assert lead + [sign] + ds + trail == lead + core + trail;
    SignedNoInfoSeparator(sign, ds);
    NoInfoSeparatorJoin(lead, core, trail);
    assert core[|core| - 1] == ds[|ds| - 1] && IsDigit(ds[|ds| - 1]);
    StripAround(lead, core, trail);
    ParseIntOfSigned(lead + core + trail, sign, ds);
  }

  lemma NoInfoSeparatorJoin(a: string, b: string, c: string)
    requires NoInfoSeparator(a) && NoInfoSeparator(b) && NoInfoSeparator(c)
    ensures NoInfoSeparator(a + b + c)
  {
  }

  lemma SignedNoInfoSeparator(sign: char, ds: string)
    requires sign == '+' || sign == '-'
    requires AllDigits(ds)
    ensures NoInfoSeparator([sign] + ds)
  {
  }

  /** An information separator makes `int` raise, even around digits. */
  lemma ParseIntInfoSeparator(ds: string)
    requires |ds| > 0 && AllDigits(ds)
    ensures ParseInt("\U{1c}" + ds) == None
    ensures Strip("\U{1c}" + ds) == ds
  {
    var s := "\U{1c}" + ds;
    assert IsInfoSeparator(s[0]);
    assert IsDigit(ds[0]) && IsDigit(ds[|ds| - 1]);
    StripAround("\U{1c}", ds, []);
    assert "\U{1c}" + ds + [] == s;
  }

  lemma ParseIntOfStripped(s: string, ds: string)
    requires NoInfoSeparator(s)
    requires |ds| > 0 && AllDigits(ds)
    requires Strip(s) == ds
    ensures ParseInt(s) == Some(DigitsValue(ds))
  {
  }

  lemma ParseIntOfSigned(s: string, sign: char, ds: string)
    requires NoInfoSeparator(s)
    requires |ds| > 0 && AllDigits(ds)
    requires sign == '+' || sign == '-'
    requires Strip(s) == [sign] + ds
    ensures var v: int := DigitsValue(ds);
            ParseInt(s) == Some(if sign == '-' then -v else v)
  {
    ParseStrippedSigned(sign, ds);
  }

  lemma ParseStrippedSigned(sign: char, ds: string)
    requires |ds| > 0 && AllDigits(ds)
    requires sign == '+' || sign == '-'
    ensures var v: int := DigitsValue(ds);
            ParseStripped([sign] + ds) == Some(if sign == '-' then -v else v)
  {
    var t := [sign] + ds;
    assert t[0] == sign && t[1..] == ds;
  }

  /** A bare digit string parses to its value. */
  lemma ParseIntDigits(ds: string)
    requires |ds| > 0 && AllDigits(ds)
    ensures ParseInt(ds) == Some(DigitsValue(ds))
  {
    assert IsDigit(ds[0]) && IsDigit(ds[|ds| - 1]);
    StripUnchanged(ds);
    ParseStrippedDigits(ds);
  }

  lemma ParseStrippedDigits(ds: string)
    requires |ds| > 0 && AllDigits(ds)
    ensures ParseStripped(ds) == Some(DigitsValue(ds))
  {
    assert IsDigit(ds[0]);
  }

  /** `int` rejects a string whose stripped form starts with neither a digit nor a
      sign (so `int("garbage")` raises). */
  lemma ParseIntRejects(s: string)
    requires |s| > 0 && !IsSpace(s[0]) && !IsSpace(s[|s| - 1])
    requires !IsDigit(s[0]) && s[0] != '+' && s[0] != '-'
    ensures ParseInt(s) == None
  {
    StripUnchanged(s);
  }
}
