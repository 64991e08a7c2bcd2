/** The string operations of Rust's standard library that the generator relies on:
    `starts_with`, `contains`, `split` by a string pattern, `join`, `lines`, and
    decimal printing and parsing of integers. */
module Text {
  import opened Base

  predicate StartsWith(s: string, prefix: string) {
    |prefix| <= |s| && s[..|prefix|] == prefix
  }

  predicate OccursAt(s: string, sub: string, i: nat) {
    i + |sub| <= |s| && s[i..i + |sub|] == sub
  }

  /** The position of the leftmost occurrence of `sub` in `s`. */
  function Find(s: string, sub: string): (r: Option<nat>)
    requires |sub| > 0
    ensures r.Some? ==> OccursAt(s, sub, r.value)
    ensures r.Some? ==> forall j :: 0 <= j < r.value ==> !OccursAt(s, sub, j)
    ensures r.None? ==> forall j :: 0 <= j <= |s| ==> !OccursAt(s, sub, j)
    decreases |s|
  {
    if |s| < |sub| then None
    else if s[..|sub|] == sub then Some(0)
    else
      match Find(s[1..], sub)
      case None =>
        OccursShifted(s, sub);
        None
      case Some(k) =>
        OccursShifted(s, sub);
        Some(k + 1)
  }

  /** An occurrence after the first character is one in the rest of the text. */
  lemma OccursShifted(s: string, sub: string)
    requires |s| > 0
    ensures forall j :: 1 <= j <= |s| ==> (OccursAt(s, sub, j) <==> OccursAt(s[1..], sub, j - 1))
  {
    forall j | 1 <= j <= |s|
      ensures OccursAt(s, sub, j) <==> OccursAt(s[1..], sub, j - 1)
    {
      if j + |sub| <= |s| {
        var x, y := s[j..j + |sub|], s[1..][j - 1..j - 1 + |sub|];
        forall k | 0 <= k < |sub|
          ensures x[k] == y[k]
        {
          assert s[1..][j - 1 + k] == s[j + k];
        }
        assert x == y;
      }
    }
  }

  /** A concatenation holds a line feed only where one of its parts does. */
  lemma FreeConcat(a: string, b: string)
    requires '\n' !in a && '\n' !in b
    ensures '\n' !in a + b
  {
  }

  /** Rust's `str::contains` with a string pattern. */
  predicate Contains(s: string, sub: string)
    requires |sub| > 0
  {
    Find(s, sub).Some?
  }

  /** Rust's `str::split` with a non-empty string pattern: the pieces between the
      leftmost non-overlapping occurrences of `sep`. */
  function Split(s: string, sep: string): (r: seq<string>)
    requires |sep| > 0
    ensures |r| > 0
    decreases |s|
  {
    match Find(s, sep)
    case None => [s]
    case Some(i) => [s[..i]] + Split(s[i + |sep|..], sep)
  }

  /** Rust's `[String]::join`. */
  function Join(parts: seq<string>, sep: string): string
    decreases |parts|
  {
    if |parts| == 0 then ""
    else if |parts| == 1 then parts[0]
    else parts[0] + sep + Join(parts[1..], sep)
  }

  predicate EndsWith(s: string, suffix: string) {
    |suffix| <= |s| && s[|s| - |suffix|..] == suffix
  }

  /** A line break followed by `n` spaces: the indentation inside the source's raw
      string templates. */
  function Indent(n: nat): string {
    "\n" + Spaces(n)
  }

  function Spaces(n: nat): string {
    seq(n, _ => ' ')
  }

  /** Letters, digits and underscores only, and at least one of them. */
  predicate IsIdentifier(s: string) {
    |s| > 0 && forall i :: 0 <= i < |s| ==> ('a' <= s[i] <= 'z' || 'A' <= s[i] <= 'Z' || IsDigit(s[i]) || s[i] == '_')
  }

  /** Each piece followed by a line feed: the way a printer writes lines. */
  function Terminated(lines: seq<string>): string
    decreases |lines|
  {
    if |lines| == 0 then "" else lines[0] + "\n" + Terminated(lines[1..])
  }

  function StripCarriageReturn(line: string): string {
    if |line| > 0 && line[|line| - 1] == '\r' then line[..|line| - 1] else line
  }

  function StripEach(lines: seq<string>): (r: seq<string>)
    ensures |r| == |lines|
    ensures forall i :: 0 <= i < |lines| ==> r[i] == StripCarriageReturn(lines[i])
  {
    if |lines| == 0 then [] else [StripCarriageReturn(lines[0])] + StripEach(lines[1..])
  }

  /** Rust's `str::lines`: the text between line feeds, a `\r` before a line feed
      removed; a final empty piece (after a last line feed) is not a line. */
  function Lines(s: string): seq<string> {
    var pieces := Split(s, "\n");
    var last := pieces[|pieces| - 1];
    StripEach(pieces[..|pieces| - 1]) + (if last == "" then [] else [last])
  }

  /** The iterator adaptor `.filter(|l| *l != "")`. */
  function DropEmpty(lines: seq<string>): (r: seq<string>)
    ensures forall i :: 0 <= i < |r| ==> r[i] != ""
    ensures forall l :: l in r ==> l in lines
  {
    if |lines| == 0 then []
    else if lines[0] == "" then DropEmpty(lines[1..])
    else [lines[0]] + DropEmpty(lines[1..])
  }

  // ---------------------------------------------------------------------------
  // Decimal numbers (`to_string` and `str::parse` on integer types)

  predicate IsDigit(c: char) { '0' <= c <= '9' }

  predicate AllDigits(s: string) { forall i :: 0 <= i < |s| ==> IsDigit(s[i]) }

  function DigitChar(d: nat): (c: char)
    requires d < 10
    ensures IsDigit(c)
  {
    (('0' as int) + d) as char
  }

  /** The decimal digits of `n`, most significant first, with no leading zero. */
  function NatToString(n: nat): (r: string)
    ensures |r| > 0 && AllDigits(r)
    decreases n
  {
    if n < 10 then [DigitChar(n)] else NatToString(n / 10) + [DigitChar(n % 10)]
  }

  /** Rust's `to_string` (and `{}` formatting) of an integer. */
  function IntToString(n: int): string {
    if n < 0 then "-" + NatToString(-n) else NatToString(n)
  }

  function DigitsValue(s: string): nat
    requires AllDigits(s)
    decreases |s|
  {
    if |s| == 0 then 0
    else
      assert IsDigit(s[|s| - 1]);
      10 * DigitsValue(s[..|s| - 1]) + (s[|s| - 1] as int - '0' as int)
  }

  /** The value that Rust's `from_str` gives a decimal integer text before its range
      check: an optional sign (`-` only for signed types) followed by one or more
      decimal digits. */
  function ParseInteger(s: string, signed: bool): Option<int> {
    if |s| == 0 then None
    else if (s[0] == '+' || s[0] == '-') && |s| == 1 then None
    else if s[0] == '+' then
      (if AllDigits(s[1..]) then Some(DigitsValue(s[1..])) else None)
    else if s[0] == '-' && signed then
      (if AllDigits(s[1..]) then Some(0 - DigitsValue(s[1..]) as int) else None)
    else if AllDigits(s) then Some(DigitsValue(s))
    else None
  }

  /** `s.parse::<i32>()`. */
  function ParseI32(s: string): Option<i32> {
    match ParseInteger(s, true)
    case Some(v) => if I32_MIN <= v <= I32_MAX then Some(v) else None
    case None => None
  }

  /** `s.parse::<u64>()`. */
  function ParseU64(s: string): Option<u64> {
    match ParseInteger(s, false)
    case Some(v) => if 0 <= v <= U64_MAX then Some(v) else None
    case None => None
  }

  // ---------------------------------------------------------------------------
  // Lemmas

  lemma {:induction false} DigitsValueOfNatToString(n: nat)
    ensures DigitsValue(NatToString(n)) == n
    decreases n
  {
    var s := NatToString(n);
    if n >= 10 {
      DigitsValueOfNatToString(n / 10);
      assert s[..|s| - 1] == NatToString(n / 10);
    }
  }

  /** Printing an integer and parsing it back gives the integer. */
  lemma NatToStringParses(n: nat, signed: bool)
    ensures ParseInteger(NatToString(n), signed) == Some(n)
  {
    var d := NatToString(n);
    DigitsValueOfNatToString(n);
    assert IsDigit(d[0]);
    assert d[0] != '+' && d[0] != '-';
  }

  lemma IntToStringRoundTrip(n: int)
    ensures ParseInteger(IntToString(n), true) == Some(n)
    ensures n >= 0 ==> ParseInteger(IntToString(n), false) == Some(n)
  {
    if n < 0 {
      var d := NatToString(-n);
      DigitsValueOfNatToString(-n);
      var s := "-" + d;
      assert s[0] == '-' && |s| > 1;
      assert s[1..] == d;
      assert IntToString(n) == s;
    } else {
      NatToStringParses(n, true);
      NatToStringParses(n, false);
    }
  }

  /** `i32` values survive `to_string` followed by `parse::<i32>()`. */
  lemma ParseI32RoundTrip(n: i32)
    ensures ParseI32(IntToString(n)) == Some(n)
  {
    IntToStringRoundTrip(n);
  }

  /** `u64` values survive `to_string` followed by `parse::<u64>()`. */
  lemma ParseU64RoundTrip(n: u64)
    ensures ParseU64(IntToString(n)) == Some(n)
  {
    IntToStringRoundTrip(n);
  }

  lemma {:induction false} FindAbsent(s: string, sub: string)
    requires |sub| > 0 && sub[0] !in s
    ensures Find(s, sub) == None
  {
    forall j | 0 <= j <= |s|
      ensures !OccursAt(s, sub, j)
    {
      if j + |sub| <= |s| {
        assert s[j] in s;
        assert s[j..j + |sub|][0] == s[j];
      }
    }
  }

  lemma FindAfterPrefix(a: string, b: string, sub: string)
    requires |sub| > 0 && sub[0] !in a && StartsWith(b, sub)
    ensures Find(a + b, sub) == Some(|a|)
  {
    var s := a + b;
    assert OccursAt(s, sub, |a|) by {
      assert s[|a|..|a| + |sub|] == b[..|sub|];
    }
    forall j | 0 <= j < |a|
      ensures !OccursAt(s, sub, j)
    {
      assert a[j] in a;
      if j + |sub| <= |s| {
        assert s[j..j + |sub|][0] == a[j];
      }
    }
  }

  /** Splitting a text that was joined from pieces free of the separator's first
      character recovers the pieces. */
  lemma {:induction false} SplitJoin(parts: seq<string>, sep: string)
    requires |parts| > 0 && |sep| > 0
    requires forall i :: 0 <= i < |parts| ==> sep[0] !in parts[i]
    ensures Split(Join(parts, sep), sep) == parts
    decreases |parts|
  {
    if |parts| == 1 {
      FindAbsent(parts[0], sep);
    } else {
      var rest := Join(parts[1..], sep);
      FindAfterPrefix(parts[0], sep + rest, sep);
      assert parts[0] + sep + rest == parts[0] + (sep + rest);
      var s := parts[0] + (sep + rest);
      assert s[..|parts[0]|] == parts[0];
      assert s[|parts[0]| + |sep|..] == rest;
      SplitJoin(parts[1..], sep);
    }
  }

  /** A text that begins with the separator splits into an empty first piece and
      the pieces of the remainder. */
  lemma SplitAtStart(s: string, sep: string)
    requires |sep| > 0 && StartsWith(s, sep)
    ensures Split(s, sep) == [""] + Split(s[|sep|..], sep)
  {
    assert OccursAt(s, sep, 0);
  }

  /** When `a` holds no occurrence of `sep` and its last character cannot begin one
      that runs into `sep`, the first piece of `a + sep + b` is `a`. */
  lemma SplitFirstPiece(a: string, sep: string, b: string)
    requires |sep| > 0 && Find(a, sep) == None
    requires |a| == 0 || a[|a| - 1] !in sep
    ensures Split(a + sep + b, sep) == [a] + Split(b, sep)
  {
    var s := a + sep + b;
    assert OccursAt(s, sep, |a|) by {
      assert s[|a|..|a| + |sep|] == sep;
    }
    forall j | 0 <= j < |a|
      ensures !OccursAt(s, sep, j)
    {
      if j + |sep| <= |a| {
        assert s[j..j + |sep|] == a[j..j + |sep|];
        assert !OccursAt(a, sep, j);
      } else if j + |sep| <= |s| {
        assert s[j..j + |sep|][|a| - 1 - j] == a[|a| - 1];
        assert sep[|a| - 1 - j] in sep;
      }
    }
    assert Find(s, sep) == Some(|a|);
    assert s[..|a|] == a;
    assert s[|a| + |sep|..] == b;
  }

  lemma {:induction false} SplitTerminated(lines: seq<string>)
    requires forall i :: 0 <= i < |lines| ==> '\n' !in lines[i]
    ensures Split(Terminated(lines), "\n") == lines + [""]
    decreases |lines|
  {
    if |lines| == 0 {
      FindAbsent("", "\n");
    } else {
      TailWithoutLineFeed(lines);
      SplitTerminated(lines[1..]);
      SplitLine(lines[0], Terminated(lines[1..]), lines[1..] + [""]);
      ConsAppend(lines, "");
    }
  }

  lemma TailWithoutLineFeed(lines: seq<string>)
    requires |lines| > 0 && forall i :: 0 <= i < |lines| ==> '\n' !in lines[i]
    ensures '\n' !in lines[0] && forall i :: 0 <= i < |lines[1..]| ==> '\n' !in lines[1..][i]
  {
    forall i | 0 <= i < |lines| - 1 ensures '\n' !in lines[1..][i] {
      assert lines[1..][i] == lines[i + 1];
    }
  }

  lemma ConsAppend<T>(xs: seq<T>, x: T)
    requires |xs| > 0
    ensures [xs[0]] + (xs[1..] + [x]) == xs + [x]
  {
  }

  /** The pieces of a split hold no character the text does not. */
  lemma {:induction false} SplitKeeps(s: string, sep: string, c: char)
    requires |sep| > 0 && c !in s
    ensures forall k :: 0 <= k < |Split(s, sep)| ==> c !in Split(s, sep)[k]
    decreases |s|
  {
    match Find(s, sep)
    case None =>
    case Some(i) =>
      assert c !in s[..i] by {
        forall j | 0 <= j < i ensures s[..i][j] != c {
          assert s[..i][j] == s[j];
        }
      }
      var r := s[i + |sep|..];
      assert c !in r by {
        forall j | 0 <= j < |r| ensures r[j] != c {
          assert r[j] == s[i + |sep| + j];
        }
      }
      SplitKeeps(r, sep, c);
      forall k | 0 <= k < |Split(s, sep)| ensures c !in Split(s, sep)[k] {
        if k > 0 {
          assert Split(s, sep)[k] == Split(r, sep)[k - 1];
        }
      }
  }

  /** Lines free of line feeds, joined and followed by a line feed and `rest`,
      split back into those lines and the pieces of `rest`. */
  lemma {:induction false} SplitJoinedThen(parts: seq<string>, rest: string, tail: seq<string>)
    requires |parts| > 0 && forall i :: 0 <= i < |parts| ==> '\n' !in parts[i]
    requires Split(rest, "\n") == tail
    ensures Split(Join(parts, "\n") + "\n" + rest, "\n") == parts + tail
    decreases |parts|
  {
    if |parts| == 1 {
      SplitLine(parts[0], rest, tail);
    } else {
      TailWithoutLineFeed(parts);
      SplitJoinedThen(parts[1..], rest, tail);
      var j := Join(parts[1..], "\n");
      JoinThenCons(parts, rest);
      SplitLine(parts[0], j + "\n" + rest, parts[1..] + tail);
      ConsAfter(parts, tail);
    }
  }

  lemma JoinThenCons(parts: seq<string>, rest: string)
    requires |parts| > 1
    ensures Join(parts, "\n") + "\n" + rest == parts[0] + "\n" + (Join(parts[1..], "\n") + "\n" + rest)
  {
  }

  lemma ConsAfter<T>(xs: seq<T>, tail: seq<T>)
    requires |xs| > 0
    ensures [xs[0]] + (xs[1..] + tail) == xs + tail
  {
  }

  /** `xs[0], ys[0], xs[1], ys[1], ...`. */
  function Interleave<T>(xs: seq<T>, ys: seq<T>): seq<T>
    requires |xs| == |ys|
    decreases |xs|
  {
    if |xs| == 0 then [] else [xs[0], ys[0]] + Interleave(xs[1..], ys[1..])
  }

  lemma {:induction false} InterleaveIndex<T>(xs: seq<T>, ys: seq<T>)
    requires |xs| == |ys|
    ensures |Interleave(xs, ys)| == 2 * |xs|
    ensures forall i :: 0 <= i < |xs| ==> Interleave(xs, ys)[2 * i] == xs[i] && Interleave(xs, ys)[2 * i + 1] == ys[i]
    decreases |xs|
  {
    if |xs| > 0 {
      var r := Interleave(xs[1..], ys[1..]);
      InterleaveIndex(xs[1..], ys[1..]);
      forall i | 1 <= i < |xs|
        ensures Interleave(xs, ys)[2 * i] == xs[i] && Interleave(xs, ys)[2 * i + 1] == ys[i]
      {
        assert xs[1..][i - 1] == xs[i] && ys[1..][i - 1] == ys[i];
        assert Interleave(xs, ys)[2 * i] == r[2 * (i - 1)];
        assert Interleave(xs, ys)[2 * i + 1] == r[2 * (i - 1) + 1];
      }
    }
  }

  /** Lines joined in pairs, then the pairs joined, are the lines joined. */
  lemma {:induction false} JoinInterleave(codes: seq<string>, docs: seq<string>, members: seq<string>)
    requires 0 < |codes| == |docs| == |members|
    requires forall i :: 0 <= i < |codes| ==> codes[i] == docs[i] + "\n" + members[i]
    ensures Join(codes, "\n") == Join(Interleave(docs, members), "\n")
    decreases |codes|
  {
    var d, m := docs[0], members[0];
    var r := Interleave(docs[1..], members[1..]);
    assert Interleave(docs, members) == [d, m] + r;
    assert ([d, m] + r)[1..] == [m] + r;
    if |codes| == 1 {
      assert [m] + r == [m];
    } else {
      assert forall i :: 0 <= i < |codes| - 1 ==> codes[1..][i] == docs[1..][i] + "\n" + members[1..][i] by {
        forall i | 0 <= i < |codes| - 1
          ensures codes[1..][i] == docs[1..][i] + "\n" + members[1..][i]
        {
          assert codes[1..][i] == codes[i + 1];
          assert docs[1..][i] == docs[i + 1] && members[1..][i] == members[i + 1];
        }
      }
      JoinInterleave(codes[1..], docs[1..], members[1..]);
      assert |r| > 0;
      assert ([m] + r)[1..] == r;
      RegroupLast(d, m, Join(r, "\n"));
    }
  }

  lemma RegroupLast(d: string, m: string, rest: string)
    ensures (d + "\n" + m) + "\n" + rest == d + "\n" + (m + "\n" + rest)
  {
  }

  lemma InterleaveHasNoLineFeed(xs: seq<string>, ys: seq<string>)
    requires |xs| == |ys|
    requires forall i :: 0 <= i < |xs| ==> '\n' !in xs[i] && '\n' !in ys[i]
    ensures forall k :: 0 <= k < |Interleave(xs, ys)| ==> '\n' !in Interleave(xs, ys)[k]
  {
    InterleaveIndex(xs, ys);
    forall k | 0 <= k < |Interleave(xs, ys)|
      ensures '\n' !in Interleave(xs, ys)[k]
    {
      if k % 2 == 0 {
        assert k == 2 * (k / 2);
      } else {
        assert k == 2 * (k / 2) + 1;
      }
    }
  }

  /** A prefix written before joined parts joins the first part. */
  lemma JoinPrefix(p: string, parts: seq<string>, sep: string)
    requires |parts| > 0
    ensures p + Join(parts, sep) == Join([p + parts[0]] + parts[1..], sep)
  {
    var q := [p + parts[0]] + parts[1..];
    assert q[1..] == parts[1..];
    if |parts| > 1 {
      assert p + (parts[0] + sep + Join(parts[1..], sep)) == (p + parts[0]) + sep + Join(parts[1..], sep);
    }
  }

  lemma SplitLine(line: string, rest: string, pieces: seq<string>)
    requires '\n' !in line && Split(rest, "\n") == pieces
    ensures Split(line + "\n" + rest, "\n") == [line] + pieces
  {
    FindAbsent(line, "\n");
    if |line| > 0 {
      assert line[|line| - 1] in line;
    }
    SplitFirstPiece(line, "\n", rest);
  }

  /** `lines()` of lines written by a printer gives back the lines, provided none
      holds a line feed or ends in a carriage return. */
  lemma LinesOfTerminated(lines: seq<string>)
    requires forall i :: 0 <= i < |lines| ==> '\n' !in lines[i]
    requires forall i :: 0 <= i < |lines| ==> StripCarriageReturn(lines[i]) == lines[i]
    ensures Lines(Terminated(lines)) == lines
  {
    SplitTerminated(lines);
    StripEachUnchanged(lines);
    LinesOfPieces(Terminated(lines), lines);
  }

  lemma LinesOfPieces(s: string, lines: seq<string>)
    requires Split(s, "\n") == lines + [""] && StripEach(lines) == lines
    ensures Lines(s) == lines
  {
    var pieces := lines + [""];
    assert pieces[..|pieces| - 1] == lines;
  }

  lemma StripEachUnchanged(lines: seq<string>)
    requires forall i :: 0 <= i < |lines| ==> StripCarriageReturn(lines[i]) == lines[i]
    ensures StripEach(lines) == lines
  {
  }

  lemma TerminatedAfterEmpty(lines: seq<string>)
    ensures Terminated([""] + lines) == "\n" + Terminated(lines)
  {
    var all := [""] + lines;
    assert all[1..] == lines;
    assert Terminated(all) == all[0] + "\n" + Terminated(all[1..]);
  }

  lemma {:induction false} TerminatedEnds(lines: seq<string>)
    requires |lines| > 0
    ensures |Terminated(lines)| > 0 && Terminated(lines)[|Terminated(lines)| - 1] == '\n'
    decreases |lines|
  {
    if |lines| > 1 {
      TerminatedEnds(lines[1..]);
    }
  }

  lemma OccursWithin(s: string, sub: string, j: nat, off: nat, t: string)
    requires OccursAt(s, sub, j) && off + |t| <= |s| && t == s[off..off + |t|]
    requires off <= j && j + |sub| <= off + |t|
    ensures OccursAt(t, sub, j - off)
  {
    forall k | 0 <= k < |sub| ensures t[j - off + k] == sub[k] {
      assert s[j..j + |sub|][k] == s[j + k];
    }
    assert t[j - off..j - off + |sub|] == sub;
  }

  lemma OccursOver(s: string, sub: string, j: nat, p: nat)
    requires OccursAt(s, sub, j) && j <= p < j + |sub|
    ensures s[p] in sub
  {
    assert s[j..j + |sub|][p - j] == s[p];
  }

  /** An occurrence of a pattern without line feeds lies within one line. */
  lemma FindAcrossLineFeed(a: string, b: string, sub: string)
    requires |sub| > 0 && '\n' !in sub && Find(a, sub) == None && Find(b, sub) == None
    ensures Find(a + "\n" + b, sub) == None
  {
    var s := a + "\n" + b;
    var r := Find(s, sub);
    if r.Some? {
      var j := r.value;
      if j + |sub| <= |a| {
        assert a == s[0..|a|];
        OccursWithin(s, sub, j, 0, a);
      } else if j > |a| {
        assert b == s[|a| + 1..|a| + 1 + |b|];
        OccursWithin(s, sub, j, |a| + 1, b);
      } else {
        OccursOver(s, sub, j, |a|);
      }
    }
  }

  lemma {:induction false} FindTerminated(lines: seq<string>, sub: string)
    requires |sub| > 0 && '\n' !in sub
    requires forall i :: 0 <= i < |lines| ==> Find(lines[i], sub) == None
    ensures Find(Terminated(lines), sub) == None
    decreases |lines|
  {
    if |lines| == 0 {
      FindAbsent("", sub);
    } else {
      FindTerminated(lines[1..], sub);
      FindAcrossLineFeed(lines[0], Terminated(lines[1..]), sub);
    }
  }

  lemma SplitAfterPiece(a: string, sep: string, b: string)
    requires |sep| > 0 && Find(a, sep) == None
    requires |a| == 0 || a[|a| - 1] !in sep
    ensures Split(a + (sep + b), sep) == [a] + Split(b, sep)
  {
    assert a + (sep + b) == a + sep + b;
    SplitFirstPiece(a, sep, b);
  }

  lemma SplitAfterSeparator(sep: string, b: string)
    requires |sep| > 0
    ensures Split(sep + b, sep) == [""] + Split(b, sep)
  {
    assert (sep + b)[..|sep|] == sep;
    assert (sep + b)[|sep|..] == b;
    SplitAtStart(sep + b, sep);
  }

  lemma OccursContains(s: string, sub: string, i: nat)
    requires |sub| > 0 && OccursAt(s, sub, i)
    ensures Contains(s, sub)
  {
  }

  lemma ContainsMiddle(a: string, sub: string, b: string)
    requires |sub| > 0
    ensures Contains(a + sub + b, sub)
  {
    var s := a + sub + b;
    assert s[|a|..|a| + |sub|] == sub;
    OccursContains(s, sub, |a|);
  }

  /** `x` occurs somewhere in `s`. */
  predicate Infix(x: string, s: string) {
    exists i :: 0 <= i <= |s| && OccursAt(s, x, i)
  }

  lemma InfixOf(a: string, x: string, b: string)
    ensures Infix(x, a + x + b)
  {
    var s := a + x + b;
    assert s[|a|..|a| + |x|] == x;
    assert OccursAt(s, x, |a|);
  }

  lemma InfixEnd(a: string, x: string)
    ensures Infix(x, a + x)
  {
    assert (a + x)[|a|..|a| + |x|] == x;
    assert OccursAt(a + x, x, |a|);
  }

  lemma InfixStart(x: string, t: string)
    ensures Infix(x, x + t)
  {
    assert (x + t)[0..|x|] == x;
    assert OccursAt(x + t, x, 0);
  }

  lemma InfixPrefix(x: string, s: string)
    requires StartsWith(s, x)
    ensures Infix(x, s)
  {
    assert s[0..|x|] == x;
    assert OccursAt(s, x, 0);
  }

  /** What occurs in a text occurs in any text that extends it. */
  lemma InfixExtend(x: string, s: string, a: string, b: string)
    requires Infix(x, s)
    ensures Infix(x, s + b) && Infix(x, a + s)
  {
    InfixStart(s, b);
    InfixTrans(x, s, s + b);
    InfixEnd(a, s);
    InfixTrans(x, s, a + s);
  }

  /** `Contains` holds exactly where the pattern occurs. */
  lemma ContainsInfix(s: string, x: string)
    requires |x| > 0
    ensures Contains(s, x) <==> Infix(x, s)
  {
    if Infix(x, s) {
      InfixContains(x, s);
    }
  }

  lemma InfixTrans(x: string, y: string, s: string)
    requires Infix(x, y) && Infix(y, s)
    ensures Infix(x, s)
  {
    var i :| 0 <= i <= |y| && OccursAt(y, x, i);
    var j :| 0 <= j <= |s| && OccursAt(s, y, j);
    forall k | 0 <= k < |x| ensures s[j + i + k] == x[k] {
      assert s[j..j + |y|][i + k] == s[j + i + k];
      assert y[i..i + |x|][k] == y[i + k];
    }
    assert s[j + i..j + i + |x|] == x;
    assert OccursAt(s, x, j + i);
  }

  /** `x` occurs in a text made of `a`, then `y`, then `b`, where `y` holds it. */
  lemma InfixWithin(x: string, a: string, y: string, b: string)
    requires Infix(x, y)
    ensures Infix(x, a + y + b)
  {
    InfixOf(a, y, b);
    InfixTrans(x, y, a + y + b);
  }

  lemma InfixContains(x: string, s: string)
    requires |x| > 0 && Infix(x, s)
    ensures Contains(s, x)
  {
    var i :| 0 <= i <= |s| && OccursAt(s, x, i);
    OccursContains(s, x, i);
  }

  /** Each part of a joined text occurs in it. */
  lemma {:induction false} InfixJoin(parts: seq<string>, sep: string, k: nat)
    requires k < |parts|
    ensures Infix(parts[k], Join(parts, sep))
    decreases |parts|
  {
    if |parts| == 1 {
      InfixOf("", parts[0], "");
      assert "" + parts[0] + "" == parts[0];
    } else if k == 0 {
      InfixOf("", parts[0], sep + Join(parts[1..], sep));
      assert "" + parts[0] + (sep + Join(parts[1..], sep)) == Join(parts, sep);
    } else {
      InfixJoin(parts[1..], sep, k - 1);
      InfixWithin(parts[k], parts[0] + sep, Join(parts[1..], sep), "");
      assert parts[0] + sep + Join(parts[1..], sep) + "" == Join(parts, sep);
    }
  }

  /** The parts of a template, one after the other. */
  function Concat(parts: seq<string>): string
    decreases |parts|
  {
    if |parts| == 0 then "" else parts[0] + Concat(parts[1..])
  }

  /** Texts that are lines with their line feeds concatenate to the lines
      terminated. */
  lemma {:induction false} ConcatTerminated(texts: seq<string>, lines: seq<string>)
    requires |texts| == |lines| && forall i :: 0 <= i < |texts| ==> texts[i] == lines[i] + "\n"
    ensures Concat(texts) == Terminated(lines)
    decreases |texts|
  {
    if |texts| > 0 {
      assert forall i :: 0 <= i < |texts| - 1 ==> texts[1..][i] == lines[1..][i] + "\n" by {
        forall i | 0 <= i < |texts| - 1 ensures texts[1..][i] == lines[1..][i] + "\n" {
          assert texts[1..][i] == texts[i + 1];
        }
      }
      ConcatTerminated(texts[1..], lines[1..]);
    }
  }

  /** Each part of a template occurs in it. */
  lemma {:induction false} InfixConcat(parts: seq<string>, k: nat)
    requires k < |parts|
    ensures Infix(parts[k], Concat(parts))
    decreases |parts|
  {
    if k == 0 {
      InfixOf("", parts[0], Concat(parts[1..]));
      assert "" + parts[0] + Concat(parts[1..]) == Concat(parts);
    } else {
      InfixConcat(parts[1..], k - 1);
      InfixWithin(parts[k], parts[0], Concat(parts[1..]), "");
      assert parts[0] + Concat(parts[1..]) + "" == Concat(parts);
    }
  }

  /** Joining one more part appends the separator and the part. */
  lemma {:induction false} JoinSnoc(parts: seq<string>, x: string, sep: string)
    requires |parts| > 0
    ensures Join(parts + [x], sep) == Join(parts, sep) + sep + x
    decreases |parts|
  {
    if |parts| == 1 {
      assert (parts + [x])[1..] == [x];
    } else {
      assert (parts + [x])[1..] == parts[1..] + [x];
      JoinSnoc(parts[1..], x, sep);
    }
  }

  /** The decimal text of an integer is non-empty, ends in a digit and holds no
      line feed. */
  lemma IntToStringShape(n: int)
    ensures |IntToString(n)| > 0 && IsDigit(IntToString(n)[|IntToString(n)| - 1])
    ensures '\n' !in IntToString(n) && ':' !in IntToString(n)
  {
    var d := NatToString(if n < 0 then -n else n);
    assert forall i :: 0 <= i < |d| ==> IsDigit(d[i]);
    if n < 0 {
      assert IntToString(n) == "-" + d;
      assert forall i :: 1 <= i < |IntToString(n)| ==> IntToString(n)[i] == d[i - 1];
    }
  }

  /** A text does not start with a prefix that it contradicts at position `i`. */
  lemma DiffersAt(s: string, prefix: string, i: nat)
    requires i < |prefix| && (i >= |s| || s[i] != prefix[i])
    ensures !StartsWith(s, prefix)
  {
    if |prefix| <= |s| {
      assert s[..|prefix|][i] == s[i];
    }
  }
}
