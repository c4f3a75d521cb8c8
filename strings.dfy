/** The handful of Python `str` operations the service relies on, written out
    with the semantics CPython gives them (`split`, `join`, `strip`, `in`,
    `replace`, slicing, `{:05d}` formatting, `os.path.join`). */
module Strings {
  import opened Results

  // ---------------------------------------------------------------------
  // Whitespace and stripping
  // ---------------------------------------------------------------------

  /** `c.isspace()` in CPython: the ASCII separators plus the Unicode
      characters of class Zs or bidirectional class WS, B or S. */
  predicate IsSpace(c: char) {
    c == ' ' || ('\t' <= c <= '\r') || ('\U{1C}' <= c <= '\U{1F}')
    || c == '\U{85}' || c == '\U{A0}' || c == '\U{1680}'
    || ('\U{2000}' <= c <= '\U{200A}') || c == '\U{2028}' || c == '\U{2029}'
    || c == '\U{202F}' || c == '\U{205F}' || c == '\U{3000}'
  }

  /** `s.lstrip()` */
  function LStrip(s: string): string {
    if s != [] && IsSpace(s[0]) then LStrip(s[1..]) else s
  }

  /** `s.rstrip()` */
  function RStrip(s: string): string {
    if s != [] && IsSpace(s[|s| - 1]) then RStrip(s[..|s| - 1]) else s
  }

  /** `lstrip` removes exactly the leading whitespace: what remains is a
      suffix that starts with a non-space, and all that was cut is space. */
  lemma {:induction false} LStripRemovesLeadingSpace(s: string)
    ensures var r := LStrip(s);
      && |r| <= |s| && r == s[|s| - |r|..]
      && (r == [] || !IsSpace(r[0]))
      && forall i :: 0 <= i < |s| - |r| ==> IsSpace(s[i])
  {
    if s != [] && IsSpace(s[0]) {
      LStripRemovesLeadingSpace(s[1..]);
      assert forall i :: 1 <= i < |s| ==> s[i] == s[1..][i - 1];
    }
  }

  /** `rstrip` removes exactly the trailing whitespace. */
  lemma {:induction false} RStripRemovesTrailingSpace(s: string)
    ensures var r := RStrip(s);
      && |r| <= |s| && r == s[..|r|]
      && (r == [] || !IsSpace(r[|r| - 1]))
      && forall i :: |r| <= i < |s| ==> IsSpace(s[i])
  {
    if s != [] && IsSpace(s[|s| - 1]) {
      RStripRemovesTrailingSpace(s[..|s| - 1]);
    }
  }

  /** `s.strip()` */
  function Strip(s: string): string {
    RStrip(LStrip(s))
  }

  /** `s.lower()` on ASCII: only `A`-`Z` are folded. Python also folds
      non-ASCII letters, which the names compared here never contain. */
  function Lower(s: string): (r: string)
    ensures |r| == |s|
  {
    seq(|s|, i requires 0 <= i < |s| => if 'A' <= s[i] <= 'Z' then (s[i] - 'A' + 'a') as char else s[i])
  }

  // ---------------------------------------------------------------------
  // split / join
  // ---------------------------------------------------------------------

  /** `sep.join(parts)` */
  function Join(parts: seq<string>, sep: string): string {
    if parts == [] then ""
    else if |parts| == 1 then parts[0]
    else parts[0] + sep + Join(parts[1..], sep)
  }

  /** Index of the first `c` in `s`. */
  function IndexOf(s: string, c: char): (i: nat)
    requires c in s
    ensures i < |s| && s[i] == c && c !in s[..i]
  {
    if s[0] == c then 0 else 1 + IndexOf(s[1..], c)
  }

  /** `s.split(sep)` for a one-character separator: never empty, no piece
      contains the separator, and joining the pieces gives `s` back. */
  function Split(s: string, sep: char): (parts: seq<string>)
    ensures |parts| >= 1
    ensures forall i :: 0 <= i < |parts| ==> sep !in parts[i]
    ensures Join(parts, [sep]) == s
    decreases |s|
  {
    if sep !in s then [s]
    else
      var i := IndexOf(s, sep);
      var rest := Split(s[i + 1..], sep);
      assert ([s[..i]] + rest)[1..] == rest;
      assert s == s[..i] + [sep] + s[i + 1..];
      [s[..i]] + rest
  }

  /** One step of Split: the piece before the first separator, then the
      split of the rest. */
  lemma SplitAt(s: string, sep: char)
    requires sep in s
    ensures Split(s, sep) == [s[..IndexOf(s, sep)]] + Split(s[IndexOf(s, sep) + 1..], sep)
  {
  }

  /** A separator after a string without one: that string is the first
      piece. */
  lemma SplitAfterPiece(a: string, b: string, sep: char)
    requires sep !in a
    ensures Split(a + [sep] + b, sep) == [a] + Split(b, sep)
    ensures Split(a, sep) == [a]
  {
    var s := a + [sep] + b;
    assert s[..|a|] == a && s[|a| + 1..] == b;
    SplitAtFirst(s, sep, |a|);
  }

  /** A string holding the separator splits into at least two pieces. */
  lemma SplitHasTwo(s: string, sep: char)
    requires sep in s
    ensures |Split(s, sep)| >= 2
  {
    SplitAt(s, sep);
  }

  /** The first separator is found where it is. */
  lemma IndexOfIs(s: string, c: char, i: nat)
    requires i < |s| && s[i] == c && c !in s[..i]
    ensures IndexOf(s, c) == i
  {
  }

  /** Split at a known first separator. */
  lemma SplitAtFirst(s: string, sep: char, i: nat)
    requires i < |s| && s[i] == sep && sep !in s[..i]
    ensures Split(s, sep) == [s[..i]] + Split(s[i + 1..], sep)
  {
    IndexOfIs(s, sep, i);
    SplitAt(s, sep);
  }

  /** A separator after a string holding one: the first piece is the
      string's own first piece. */
  lemma SplitBeforePiece(a: string, b: string, sep: char)
    requires sep in a
    ensures var i := IndexOf(a, sep);
            Split(a + [sep] + b, sep) == [a[..i]] + Split(a[i + 1..] + [sep] + b, sep)
  {
    var s := a + [sep] + b;
    var i := IndexOf(a, sep);
    assert s[..i] == a[..i];
    assert s[i + 1..] == a[i + 1..] + [sep] + b;
    SplitAtFirst(s, sep, i);
  }

  /** Splitting distributes over a separator placed between two strings. */
  lemma {:induction false} SplitConcat(a: string, b: string, sep: char)
    ensures Split(a + [sep] + b, sep) == Split(a, sep) + Split(b, sep)
    decreases |a|
  {
    if sep !in a {
      SplitAfterPiece(a, b, sep);
    } else {
      var i := IndexOf(a, sep);
      SplitBeforePiece(a, b, sep);
      SplitAt(a, sep);
      SplitConcat(a[i + 1..], b, sep);
      AppendAssoc([a[..i]], Split(a[i + 1..], sep), Split(b, sep));
    }
  }

  /** Appending a separator and a piece without one adds that piece. */
  lemma SplitAppendPiece(a: string, b: string, sep: char)
    requires sep !in b
    ensures Split(a + [sep] + b, sep) == Split(a, sep) + [b]
  {
    SplitConcat(a, b, sep);
  }

  /** Joining a first piece before at least one more. */
  lemma JoinCons(a: string, rest: seq<string>, sep: string)
    requires rest != []
    ensures Join([a] + rest, sep) == a + sep + Join(rest, sep)
  {
    assert ([a] + rest)[1..] == rest;
  }

  /** Pieces that do not contain the separator come back from a join
      unchanged: `sep.join(p).split(sep) == p`. */
  lemma {:induction false} SplitJoin(parts: seq<string>, sep: char)
    requires |parts| >= 1
    requires forall i :: 0 <= i < |parts| ==> sep !in parts[i]
    ensures Split(Join(parts, [sep]), sep) == parts
  {
    if |parts| > 1 {
      SplitJoin(parts[1..], sep);
      SplitConcat(parts[0], Join(parts[1..], [sep]), sep);
      assert parts == [parts[0]] + parts[1..];
    }
  }

  // ---------------------------------------------------------------------
  // Substrings
  // ---------------------------------------------------------------------

  predicate StartsWith(s: string, prefix: string) {
    |prefix| <= |s| && s[..|prefix|] == prefix
  }

  predicate EndsWith(s: string, suffix: string) {
    |suffix| <= |s| && s[|s| - |suffix|..] == suffix
  }

  /** The first index at which `pat` occurs in `s` (`s.find(pat)`). */
  function Find(s: string, pat: string): Option<nat>
    decreases |s|
  {
    if |s| < |pat| then None
    else if s[..|pat|] == pat then Some(0)
    else
      match Find(s[1..], pat)
      case None => None
      case Some(i) => Some(i + 1)
  }

  /** Find returns the first occurrence, and None only when there is none. */
  lemma {:induction false} FindSpec(s: string, pat: string)
    ensures Find(s, pat).Some? ==>
      var i := Find(s, pat).value;
      i + |pat| <= |s| && StartsWith(s[i..], pat) && forall j :: 0 <= j < i ==> !StartsWith(s[j..], pat)
    ensures Find(s, pat).None? ==> forall j :: 0 <= j <= |s| ==> !StartsWith(s[j..], pat)
    decreases |s|
  {
    if |s| >= |pat| && s[..|pat|] != pat {
      FindSpec(s[1..], pat);
      assert forall j :: 1 <= j <= |s| ==> s[j..] == s[1..][j - 1..];
    }
  }

  /** `pat in s` */
  predicate Contains(s: string, pat: string) {
    Find(s, pat).Some?
  }

  /** A string occurs in any string built around it. */
  lemma ContainsInfix(a: string, b: string, c: string)
    ensures Contains(a + b + c, b)
  {
    var s := a + b + c;
    assert s[|a|..][..|b|] == b;
    assert StartsWith(s[|a|..], b);
    FindSpec(s, b);
  }

  /** An occurrence survives appending more text. */
  lemma ContainsExtend(s: string, t: string, pat: string)
    requires Contains(s, pat)
    ensures Contains(s + t, pat)
  {
    FindSpec(s, pat);
    var i := Find(s, pat).value;
    assert (s + t)[i..][..|pat|] == s[i..][..|pat|];
    FindSpec(s + t, pat);
  }

  /** The second of six concatenated pieces occurs in the whole. */
  lemma ContainsSecond(a: string, b: string, c: string, d: string, e: string, f: string)
    ensures Contains(a + b + c + d + e + f, b)
  {
    ContainsInfix(a, b, c);
    ContainsExtend(a + b + c, d, b);
    ContainsExtend(a + b + c + d, e, b);
    ContainsExtend(a + b + c + d + e, f, b);
  }

  /** Regrouping three sequences, stated on variables. */
  lemma AppendAssoc<T>(a: seq<T>, b: seq<T>, c: seq<T>)
    ensures a + b + c == a + (b + c)
  {
  }

  /** Extending a prefix by the next element of a slice. */
  lemma AppendSliceStep<T>(prefix: seq<T>, s: seq<T>, i: nat, j: nat)
    requires i < j <= |s|
    ensures prefix + [s[i]] + s[i + 1..j] == prefix + s[i..j]
  {
    SliceCons(s, i, j);
    AppendAssoc(prefix, [s[i]], s[i + 1..j]);
  }

  /** Regrouping three sets. */
  lemma UnionAssoc<T>(a: set<T>, b: set<T>, c: set<T>)
    ensures a + b + c == a + (b + c)
  {
  }

  /** A non-empty slice is its first element followed by the rest. */
  lemma SliceCons<T>(s: seq<T>, i: nat, j: nat)
    requires i < j <= |s|
    ensures s[i..j] == [s[i]] + s[i + 1..j]
  {
  }

  /** Regrouping the pieces of a file name under a directory. */
  lemma RegroupName(dir: string, slash: string, record: string, mid: string, p: string, u: string, t: string,
                    dot: string, ext: string)
    ensures dir + slash + (record + mid + p + u + t + dot + ext) == dir + (slash + record + mid) + p + u + t + (dot + ext)
  {
  }

  lemma RegroupStem(record: string, mid: string, p: string, u: string, t: string, dot: string, ext: string)
    ensures record + mid + p + u + t + dot + ext == (record + mid) + p + u + t + (dot + ext)
  {
  }

  lemma PrefixOfConcat(x: string, c: string, d: string, e: string, f: string, g: string)
    ensures StartsWith(x + c + d + e + f + g, x)
  {
    assert (x + c + d + e + f + g)[..|x|] == x;
  }

  /** `s.split(sep, 1)[1]` when `sep` occurs in `s`; `None` where Python
      would raise IndexError. */
  function AfterFirst(s: string, sep: string): (r: Option<string>)
    ensures r.Some? <==> Contains(s, sep)
    ensures r.Some? ==> exists i :: 0 <= i <= |s| - |sep| && s == s[..i] + sep + r.value
  {
    FindSpec(s, sep);
    match Find(s, sep)
    case None => None
    case Some(i) =>
      assert s == s[..i] + sep + s[i + |sep|..];
      Some(s[i + |sep|..])
  }

  /** `s.replace(pat, rep)` for a non-empty `pat`: occurrences are replaced
      left to right without overlap. */
  function ReplaceAll(s: string, pat: string, rep: string): string
    requires |pat| > 0
    decreases |s|
  {
    if |s| < |pat| then s
    else if s[..|pat|] == pat then rep + ReplaceAll(s[|pat|..], pat, rep)
    else [s[0]] + ReplaceAll(s[1..], pat, rep)
  }

  /** One step of ReplaceAll where the pattern does not start the string. */
  lemma ReplaceMiss(s: string, pat: string, rep: string)
    requires |pat| > 0 && |s| >= |pat| && s[..|pat|] != pat
    ensures ReplaceAll(s, pat, rep) == [s[0]] + ReplaceAll(s[1..], pat, rep)
  {
  }

  /** No occurrence before the tail stays true one character later. */
  lemma NoEarlierOccurrence(x: string, pat: string)
    requires x != []
    requires forall k :: 0 <= k < |x| ==> !StartsWith((x + pat)[k..], pat)
    ensures forall k :: 0 <= k < |x[1..]| ==> !StartsWith((x[1..] + pat)[k..], pat)
    ensures (x + pat)[..|pat|] != pat
  {
    var s := x + pat;
    forall k | 0 <= k < |x[1..]|
      ensures !StartsWith((x[1..] + pat)[k..], pat)
    {
      assert (x[1..] + pat)[k..] == s[k + 1..];
    }
    assert !StartsWith(s[0..], pat);
    assert s[0..] == s;
  }

  /** Replacing in a string that ends with the pattern, and has no other
      occurrence starting before that end, only rewrites the tail. */
  lemma {:induction false} ReplaceTail(x: string, pat: string, rep: string)
    requires |pat| > 0
    requires forall k :: 0 <= k < |x| ==> !StartsWith((x + pat)[k..], pat)
    ensures ReplaceAll(x + pat, pat, rep) == x + rep
    decreases |x|
  {
    var s := x + pat;
    if x == [] {
      assert s == pat && s[|pat|..] == [];
    } else {
      NoEarlierOccurrence(x, pat);
      ReplaceMiss(s, pat, rep);
      assert s[1..] == x[1..] + pat;
      ReplaceTail(x[1..], pat, rep);
      assert [x[0]] + (x[1..] + rep) == x + rep;
    }
  }

  /** Replacing a pattern that does not occur changes nothing. */
  lemma {:induction false} ReplaceAbsent(s: string, pat: string, rep: string)
    requires |pat| > 0
    requires !Contains(s, pat)
    ensures ReplaceAll(s, pat, rep) == s
    decreases |s|
  {
    if |s| >= |pat| {
      ReplaceAbsent(s[1..], pat, rep);
    }
  }

  // ---------------------------------------------------------------------
  // Numbers and paths
  // ---------------------------------------------------------------------

  predicate IsDigit(c: char) { '0' <= c <= '9' }

  /** `str(n)` for a natural number. */
  function NatToString(n: nat): (s: string)
    ensures |s| >= 1
    ensures forall i :: 0 <= i < |s| ==> IsDigit(s[i])
  {
    if n < 10 then ["0123456789"[n]]
    else NatToString(n / 10) + ["0123456789"[n % 10]]
  }

  function Repeat(c: char, n: nat): (s: string)
    ensures |s| == n && forall i :: 0 <= i < n ==> s[i] == c
  {
    if n == 0 then "" else [c] + Repeat(c, n - 1)
  }

  /** `f"{n:05d}"` for a natural number: at least five digits, left-padded
      with zeros. */
  function Pad5(n: nat): (s: string)
    ensures |s| >= 5
    ensures forall i :: 0 <= i < |s| ==> IsDigit(s[i])
  {
    var d := NatToString(n);
    if |d| < 5 then Repeat('0', 5 - |d|) + d else d
  }

  lemma DigitValue(d: nat)
    requires d < 10
    ensures "0123456789"[d] as int == '0' as int + d
  {
  }

  /** The decimal form of a number starts with a zero only for zero itself. */
  lemma {:induction false} NoLeadingZero(n: nat)
    ensures NatToString(n)[0] == '0' ==> n == 0
  {
    if n < 10 {
      DigitValue(n);
    } else {
      NoLeadingZero(n / 10);
    }
  }

  /** Different numbers have different decimal forms. */
  lemma {:induction false} NatToStringInjective(a: nat, b: nat)
    requires NatToString(a) == NatToString(b)
    ensures a == b
  {
    if a < 10 && b < 10 {
      DigitValue(a);
      DigitValue(b);
    } else if a >= 10 && b >= 10 {
      var sa, sb := NatToString(a), NatToString(b);
      assert sa[..|sa| - 1] == NatToString(a / 10);
      assert sb[..|sb| - 1] == NatToString(b / 10);
      NatToStringInjective(a / 10, b / 10);
      DigitValue(a % 10);
      DigitValue(b % 10);
      assert sa[|sa| - 1] == sb[|sb| - 1];
    } else {
      assert false;
    }
  }

  /** Different numbers have different zero-padded forms, so `{n:05d}`
      names never collide. */
  lemma Pad5Injective(a: nat, b: nat)
    requires Pad5(a) == Pad5(b)
    ensures a == b
  {
    var da, db := NatToString(a), NatToString(b);
    var pa, pb := Pad5(a), Pad5(b);
    NoLeadingZero(a);
    NoLeadingZero(b);
    assert |da| == |db| by {
      var ia := if |da| < 5 then 5 - |da| else 0;
      var ib := if |db| < 5 then 5 - |db| else 0;
      assert pa[ia] == da[0] && pb[ib] == db[0];
      assert forall j :: 0 <= j < ia ==> pa[j] == '0';
      assert forall j :: 0 <= j < ib ==> pb[j] == '0';
    }
    assert da == pa[|pa| - |da|..];
    assert db == pb[|pb| - |db|..];
    NatToStringInjective(a, b);
  }

  /** `s[0:n]` */
  function Take(s: string, n: nat): (r: string)
    ensures |r| <= n && StartsWith(s, r)
    ensures |r| == if n <= |s| then n else |s|
  {
    if n <= |s| then s[..n] else s
  }

  /** `os.path.join(a, b)` on POSIX. */
  function PathJoin(a: string, b: string): string {
    if b != [] && b[0] == '/' then b
    else if a == [] || a[|a| - 1] == '/' then a + b
    else a + "/" + b
  }
}
