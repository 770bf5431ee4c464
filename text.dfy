/** String helpers for the operations the source performs with JavaScript string methods
    (`startsWith`, `split(".").pop()`, `toLowerCase`, `includes`, `replace`, `join`). */
module Text {
  import opened Wrappers

  predicate StartsWith(s: string, prefix: string) {
    |prefix| <= |s| && s[..|prefix|] == prefix
  }

  predicate EndsWith(s: string, suffix: string) {
    |suffix| <= |s| && s[|s| - |suffix|..] == suffix
  }

  /** `s.includes(sub)`. */
  predicate Contains(s: string, sub: string)
    decreases |s|
  {
    StartsWith(s, sub) || (s != [] && Contains(s[1..], sub))
  }

  /** `to.startsWith(".") ? to : "." + to`, the dot-prefixing every converter applies. */
  function DotPrefixed(s: string): (r: string)
    ensures StartsWith(r, ".")
    ensures StartsWith(s, ".") ==> r == s
    ensures !StartsWith(s, ".") ==> r == "." + s && r[1..] == s
  {
    if StartsWith(s, ".") then s else "." + s
  }

  /** `to.startsWith(".") ? to.slice(1) : to`, the dot-stripping of the remote backend. */
  function StripLeadingDot(s: string): (r: string)
    ensures StartsWith(s, ".") ==> "." + r == s
    ensures !StartsWith(s, ".") ==> r == s
  {
    if StartsWith(s, ".") then s[1..] else s
  }

  /** ASCII case mapping of `toLowerCase`. */
  function LowerChar(c: char): char {
    if 'A' <= c <= 'Z' then (c as int - 'A' as int + 'a' as int) as char else c
  }

  function ToLower(s: string): (r: string)
    ensures |r| == |s|
    ensures forall i :: 0 <= i < |s| ==> r[i] == LowerChar(s[i])
  {
    seq(|s|, i requires 0 <= i < |s| => LowerChar(s[i]))
  }

  lemma ToLowerKeepsDots(s: string)
    ensures forall i :: 0 <= i < |s| ==> (s[i] == '.' <==> ToLower(s)[i] == '.')
  {
  }

  /** Index of the last '.' in `s`, if any. */
  function LastDot(s: string): (r: Option<nat>)
    ensures r.Some? ==> r.value < |s| && s[r.value] == '.' && '.' !in s[r.value + 1..]
    ensures r.None? ==> '.' !in s
    decreases |s|
  {
    if s == [] then None
    else if s[|s| - 1] == '.' then Some(|s| - 1)
    else
      var r := LastDot(s[..|s| - 1]);
      assert s == s[..|s| - 1] + [s[|s| - 1]];
      if r.Some? then
        assert s[r.value + 1..] == s[..|s| - 1][r.value + 1..] + [s[|s| - 1]];
        r
      else None
  }

  /** `s.split(".").pop()`: the text after the last dot, or the whole string without one. */
  function LastSegment(s: string): (r: string)
    ensures '.' !in r
    ensures EndsWith(s, r)
    ensures '.' !in s ==> r == s
  {
    match LastDot(s)
    case None => s
    case Some(k) => s[k + 1..]
  }

  /** `s.split(".").slice(0, -1).join(".")`: everything before the last dot, or "" without one. */
  function InitSegments(s: string): (r: string)
    ensures '.' in s ==> s == r + "." + LastSegment(s)
    ensures '.' !in s ==> r == ""
  {
    match LastDot(s)
    case None => ""
    case Some(k) => assert s == s[..k] + "." + s[k + 1..]; s[..k]
  }

  /** Where the regular expression `/\.[^/.]+$/` matches `s`: at the last dot, when at
      least one character follows it and none of them is a '/'. */
  function ExtensionMatch(s: string): (r: Option<nat>)
    ensures r.Some? ==> r.value < |s| - 1 && s[r.value] == '.' && '.' !in s[r.value + 1..] && '/' !in s[r.value + 1..]
    ensures r.Some? ==> LastDot(s) == r
    ensures r.None? ==> forall k :: 0 <= k < |s| - 1 && s[k] == '.' ==> '.' in s[k + 1..] || '/' in s[k + 1..]
  {
    match LastDot(s)
    case None => None
    case Some(k) =>
      if k + 1 < |s| && '/' !in s[k + 1..] then Some(k)
      else
        forall j | 0 <= j < |s| - 1 && s[j] == '.' ensures '.' in s[j + 1..] || '/' in s[j + 1..] {
          if j < k {
            assert s[j + 1..][k - j - 1] == '.';
          } else {
            assert j == k;
          }
        }
        None
  }

  lemma ToLowerIdempotent(s: string)
    ensures ToLower(ToLower(s)) == ToLower(s)
  {
  }

  /** The last dot is the dot with no dot after it. */
  lemma LastDotUnique(s: string, k: nat)
    requires k < |s| && s[k] == '.' && '.' !in s[k + 1..]
    ensures LastDot(s) == Some(k)
  {
    assert LastDot(s).Some?;
  }

  /** The last dot of `a + "." + b` is the one between them when `b` has none. */
  lemma LastDotJoin(a: string, b: string)
    requires '.' !in b
    ensures LastDot(a + "." + b) == Some(|a|)
  {
    var s := a + "." + b;
    assert s[|a| + 1..] == b;
    LastDotUnique(s, |a|);
  }

  lemma SegmentsJoin(a: string, b: string)
    requires '.' !in b
    ensures LastSegment(a + "." + b) == b && InitSegments(a + "." + b) == a
  {
    LastDotJoin(a, b);
    assert (a + "." + b)[|a| + 1..] == b;
    assert (a + "." + b)[..|a|] == a;
  }

  /** `"." + name.split(".").pop().toLowerCase()`: the format a file name declares. */
  function FormatOf(name: string): (r: string)
    ensures StartsWith(r, ".")
  {
    "." + ToLower(LastSegment(name))
  }

  /** A format is a dot followed by the lowercased, dot-free tail of the name. */
  lemma FormatOfShape(name: string)
    ensures '.' !in FormatOf(name)[1..]
    ensures ToLower(FormatOf(name)) == FormatOf(name)
    ensures EndsWith(ToLower(name), FormatOf(name)[1..])
  {
    var seg := LastSegment(name);
    var r := FormatOf(name);
    assert r[1..] == ToLower(seg);
    LowerDotFree(seg);
    ToLowerConcat(".", ToLower(seg));
    ToLowerIdempotent(seg);
    assert ToLower(".") == ".";
    ToLowerSuffix(name, seg);
  }

  lemma LowerDotFree(s: string)
    requires '.' !in s
    ensures '.' !in ToLower(s)
  {
    ToLowerKeepsDots(s);
  }

  lemma ToLowerSuffix(s: string, suffix: string)
    requires EndsWith(s, suffix)
    ensures EndsWith(ToLower(s), ToLower(suffix))
  {
    var k := |s| - |suffix|;
    assert forall i :: 0 <= i < |suffix| ==> ToLower(s)[k..][i] == LowerChar(s[k + i]) && s[k + i] == suffix[i];
  }

  lemma ToLowerConcat(a: string, b: string)
    ensures ToLower(a + b) == ToLower(a) + ToLower(b)
  {
    assert forall i :: 0 <= i < |a| ==> (a + b)[i] == a[i];
    assert forall i :: |a| <= i < |a| + |b| ==> (a + b)[i] == b[i - |a|];
  }

  /** In a name with a dot, the format is the lowercased text from the last dot on. */
  lemma FormatIsLoweredTail(name: string)
    requires '.' in name
    ensures LastDot(name).Some? && |name| - LastDot(name).value == |FormatOf(name)|
    ensures ToLower(name[LastDot(name).value..]) == FormatOf(name)
  {
    var k := LastDot(name).value;
    assert name[k..] == "." + LastSegment(name);
    ToLowerConcat(".", LastSegment(name));
    assert ToLower(".") == ".";
  }

  /** Putting a lowercase, dot-free extension after the last dot of a name gives a name of
      that format. */
  lemma ReplaceFormat(name: string, ext: string)
    requires '.' in name && '.' !in ext && ToLower(ext) == ext
    ensures var s := name[..LastDot(name).value] + "." + ext;
            FormatOf(s) == "." + ext && '.' in s
  {
    var init := name[..LastDot(name).value];
    SegmentsJoin(init, ext);
    assert (init + "." + ext)[|init|] == '.';
  }

  /** `${name.split(".").slice(0, -1).join(".")}.${name.split(".").pop().toLowerCase()}`: the
      file name with its extension lowercased (a name without a dot becomes "." + its lowercase). */
  function NormalizeExtension(name: string): (r: string)
    ensures FormatOf(r) == FormatOf(name) && '.' in r
  {
    var seg := LastSegment(name);
    ToLowerKeepsDots(seg);
    SegmentsJoin(InitSegments(name), ToLower(seg));
    ToLowerIdempotent(seg);
    var r := InitSegments(name) + "." + ToLower(seg);
    assert r[|InitSegments(name)|] == '.';
    r
  }

  /** Normalising keeps everything up to the last dot; a name without a dot gains one. */
  lemma NormalizeExtensionShape(name: string)
    ensures '.' in name ==> (|NormalizeExtension(name)| == |name|
                             && NormalizeExtension(name)[..|name| - |LastSegment(name)|] == name[..|name| - |LastSegment(name)|])
    ensures '.' !in name ==> NormalizeExtension(name) == "." + ToLower(name)
  {
    var seg := LastSegment(name);
    var head := InitSegments(name) + ".";
    if '.' in name {
      PrefixOfConcat(head, ToLower(seg));
      PrefixOfConcat(head, seg);
    } else {
      assert head == ".";
    }
  }

  lemma PrefixOfConcat<T>(a: seq<T>, b: seq<T>)
    ensures (a + b)[..|a|] == a
  {
  }

  lemma FirstSplit<T>(s: seq<T>)
    requires s != []
    ensures [s[0]] + s[1..] == s
  {
  }

  lemma SuffixOfConcat(a: string, b: string)
    ensures EndsWith(a + b, b)
  {
    assert (a + b)[|a + b| - |b|..] == b;
  }

  /** Normalising twice is normalising once. */
  lemma NormalizeExtensionIdempotent(name: string)
    ensures NormalizeExtension(NormalizeExtension(name)) == NormalizeExtension(name)
  {
    var seg := LastSegment(name);
    ToLowerKeepsDots(seg);
    SegmentsJoin(InitSegments(name), ToLower(seg));
    ToLowerIdempotent(seg);
  }

  /** The `%date%`, `%name%` and `%extension%` substitutions of a download file-name template. */
  function FillTemplate(template: string, date: string, name: string, extension: string): string {
    ReplaceAll(ReplaceAll(ReplaceAll(template, "%date%", date), "%name%", name), "%extension%", extension)
  }

  /** `s.replace(/\.[^/.]+$/, ext)`. */
  function ReplaceExtension(s: string, ext: string): (r: string)
    ensures ExtensionMatch(s).None? ==> r == s
    ensures ExtensionMatch(s).Some? ==> r == s[..ExtensionMatch(s).value] + ext
  {
    match ExtensionMatch(s)
    case None => s
    case Some(k) => s[..k] + ext
  }

  /** Stripping the extension leaves everything before the last dot, or the whole name when
      the pattern does not match. */
  lemma StripExtension(s: string)
    ensures ExtensionMatch(s).Some? ==> ReplaceExtension(s, "") == InitSegments(s)
    ensures ExtensionMatch(s).None? ==> ReplaceExtension(s, "") == s
  {
    match ExtensionMatch(s)
    case None =>
    case Some(k) => assert s[..k] + "" == s[..k];
  }

  /** `s.replace(new RegExp(pat, "g"), rep)` for a pattern without special characters. */
  function ReplaceAll(s: string, pat: string, rep: string): (r: string)
    requires |pat| > 0
    ensures !Contains(s, pat) ==> r == s
    decreases |s|
  {
    if |s| < |pat| then s
    else if StartsWith(s, pat) then rep + ReplaceAll(s[|pat|..], pat, rep)
    else [s[0]] + ReplaceAll(s[1..], pat, rep)
  }

  /** A prefix in which the pattern cannot start is copied as it is. */
  lemma {:induction false} ReplaceAllPrefix(a: string, b: string, pat: string, rep: string)
    requires |pat| > 0 && pat[0] !in a
    ensures ReplaceAll(a + b, pat, rep) == a + ReplaceAll(b, pat, rep)
    decreases |a|
  {
    if a != [] {
      var s := a + b;
      assert s[0] == a[0] && s[1..] == a[1..] + b;
      ReplaceAllPrefix(a[1..], b, pat, rep);
      assert a == [a[0]] + a[1..];
      if |s| >= |pat| {
        assert s[..|pat|][0] != pat[0];
        assert ReplaceAll(s, pat, rep) == [s[0]] + ReplaceAll(s[1..], pat, rep);
        assert [s[0]] + (a[1..] + ReplaceAll(b, pat, rep)) == a + ReplaceAll(b, pat, rep);
        assert ReplaceAll(s, pat, rep) == a + ReplaceAll(b, pat, rep);
      } else {
        assert ReplaceAll(b, pat, rep) == b;
        assert ReplaceAll(s, pat, rep) == s;
      }
    } else {
      assert a + b == b;
    }
  }

  /** The pattern alone becomes the replacement. */
  lemma ReplaceAllWhole(pat: string, rep: string)
    requires |pat| > 0
    ensures ReplaceAll(pat, pat, rep) == rep
  {
    assert pat[..|pat|] == pat && pat[|pat|..] == [];
    assert rep + [] == rep;
  }

  /** A string as long as the pattern but different from it is left unchanged. */
  lemma ReplaceAllMismatch(s: string, pat: string, rep: string)
    requires |pat| > 0 && |s| == |pat| && s != pat
    ensures ReplaceAll(s, pat, rep) == s
  {
    assert s[..|pat|] == s;
    assert [s[0]] + s[1..] == s;
  }

  /** A string in which the pattern cannot start is left unchanged. */
  lemma ReplaceAllSkips(s: string, pat: string, rep: string)
    requires |pat| > 0 && pat[0] !in s
    ensures ReplaceAll(s, pat, rep) == s
  {
    ReplaceAllPrefix(s, "", pat, rep);
    assert s + "" == s;
  }

  /** A lone '%' followed by text without one holds no occurrence of a pattern of at least two
      characters that ends in '%'. */
  lemma ReplaceAllLoneMark(b: string, pat: string, rep: string)
    requires |pat| >= 2 && pat[0] == '%' && pat[|pat| - 1] == '%' && '%' !in b
    ensures ReplaceAll("%" + b, pat, rep) == "%" + b
  {
    var s := "%" + b;
    if |s| >= |pat| {
      assert s[..|pat|][|pat| - 1] == b[|pat| - 2];
      assert s[1..] == b;
      ReplaceAllSkips(b, pat, rep);
    }
  }

  /** The substitution law: the leftmost occurrence is replaced, and the scan goes on after it,
      so every non-overlapping occurrence is replaced from left to right. */
  lemma {:induction false} ReplaceAllLeftmost(a: string, b: string, pat: string, rep: string)
    requires |pat| > 0
    requires forall k :: 0 <= k < |a| ==> !StartsWith((a + pat + b)[k..], pat)
    ensures ReplaceAll(a + pat + b, pat, rep) == a + rep + ReplaceAll(b, pat, rep)
    decreases |a|
  {
    var s := a + pat + b;
    if a == [] {
      assert s == pat + b && s[..|pat|] == pat && s[|pat|..] == b;
      assert ReplaceAll(s, pat, rep) == rep + ReplaceAll(b, pat, rep);
      assert a + rep == rep;
    } else {
      assert !StartsWith(s[0..], pat) && s[0..] == s;
      var t := a[1..] + pat + b;
      assert s[1..] == t;
      forall k | 0 <= k < |a[1..]| ensures !StartsWith(t[k..], pat) {
        assert t[k..] == s[k + 1..];
      }
      assert ReplaceAll(s, pat, rep) == [s[0]] + ReplaceAll(t, pat, rep);
      ReplaceAllLeftmost(a[1..], b, pat, rep);
      ConsSplit(a, rep, ReplaceAll(b, pat, rep));
    }
  }

  lemma ConcatAssoc<T>(a: seq<T>, b: seq<T>, c: seq<T>)
    ensures a + (b + c) == a + b + c
  {
  }

  /** Splitting off the first element of the left operand of a concatenation. */
  lemma ConsSplit<T>(x: seq<T>, y: seq<T>, z: seq<T>)
    requires x != []
    ensures [x[0]] + (x[1..] + y + z) == x + y + z
  {
  }

  /** `s.replace(pat, rep)` with a string pattern: only the first occurrence is replaced. */
  function ReplaceFirst(s: string, pat: string, rep: string): (r: string)
    requires |pat| > 0
    ensures !Contains(s, pat) ==> r == s
    ensures StartsWith(s, pat) ==> r == rep + s[|pat|..]
    decreases |s|
  {
    if |s| < |pat| then s
    else if StartsWith(s, pat) then rep + s[|pat|..]
    else [s[0]] + ReplaceFirst(s[1..], pat, rep)
  }

  /** `Array.join("")`. */
  function Concat(ss: seq<string>): string
  {
    if ss == [] then "" else ss[0] + Concat(ss[1..])
  }

  predicate IsDigit(c: char) { '0' <= c <= '9' }

  function DigitChar(d: nat): (c: char)
    requires d < 10
    ensures IsDigit(c)
  {
    ('0' as int + d) as char
  }

  /** `n.toString()` for a non-negative integer. */
  function NatToString(n: nat): (r: string)
    ensures |r| > 0
    ensures forall i :: 0 <= i < |r| ==> IsDigit(r[i])
  {
    if n < 10 then [DigitChar(n)] else NatToString(n / 10) + [DigitChar(n % 10)]
  }

  /** Value of a string of decimal digits. */
  function DigitsValue(s: string): nat
    requires forall i :: 0 <= i < |s| ==> IsDigit(s[i])
  {
    if s == [] then 0
    else
      assert IsDigit(s[|s| - 1]);
      10 * DigitsValue(s[..|s| - 1]) + (s[|s| - 1] as int - '0' as int)
  }

  lemma {:induction false} NatToStringRoundTrip(n: nat)
    ensures DigitsValue(NatToString(n)) == n
  {
    if n >= 10 {
      NatToStringRoundTrip(n / 10);
      var s := NatToString(n);
      assert s[..|s| - 1] == NatToString(n / 10);
    }
  }

  /** JavaScript's default string comparison: code unit by code unit, a proper prefix first. */
  predicate LexLess(a: string, b: string)
    decreases |a|
  {
    if a == [] then b != []
    else if b == [] then false
    else if a[0] == b[0] then LexLess(a[1..], b[1..])
    else a[0] < b[0]
  }

  lemma {:induction false} LexLessIrreflexive(a: string)
    ensures !LexLess(a, a)
    decreases |a|
  {
    if a != [] { LexLessIrreflexive(a[1..]); }
  }

  lemma {:induction false} LexLessTotal(a: string, b: string)
    requires a != b
    ensures LexLess(a, b) || LexLess(b, a)
    decreases |a|
  {
    if a != [] && b != [] && a[0] == b[0] {
      assert a == [a[0]] + a[1..] && b == [b[0]] + b[1..];
      LexLessTotal(a[1..], b[1..]);
    }
  }

  lemma {:induction false} LexLessAsymmetric(a: string, b: string)
    requires LexLess(a, b)
    ensures !LexLess(b, a)
    decreases |a|
  {
    if a != [] && b != [] && a[0] == b[0] { LexLessAsymmetric(a[1..], b[1..]); }
  }

  lemma {:induction false} LexLessTransitive(a: string, b: string, c: string)
    requires LexLess(a, b) && LexLess(b, c)
    ensures LexLess(a, c)
    decreases |a|
  {
    if a != [] && b != [] && c != [] && a[0] == b[0] && b[0] == c[0] {
      LexLessTransitive(a[1..], b[1..], c[1..]);
    }
  }

  /** The comparator `Array.prototype.sort()` uses when none is given. */
  function LexCompare(a: string, b: string): int {
    if LexLess(a, b) then -1 else if LexLess(b, a) then 1 else 0
  }
}
