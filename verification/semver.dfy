/** Versions, their order and text, and the constraints on them. */
module Semver {

  import opened Options
  import opened Text
  import opened Numbers

  datatype Version = Version(major: nat, minor: nat, patch: nat, prerelease: Option<string>, build: Option<string>)

  datatype Constraint =
    | Exact(v: Version)
    | Caret(v: Version)
    | Tilde(v: Version)
    | Above(v: Version)
    | AtLeast(v: Version)
    | Below(v: Version)
    | AtMost(v: Version)
    | Wildcard(major: nat, minor: Option<nat>)
    | Any

  function Release(major: nat, minor: nat, patch: nat): Version { Version(major, minor, patch, None, None) }

  predicate IsRelease(v: Version) { v.prerelease.None? }

  predicate SameCore(a: Version, b: Version)
  {
    a.major == b.major && a.minor == b.minor && a.patch == b.patch
  }

  function BumpMajor(v: Version): Version { Release(v.major + 1, 0, 0) }
  function BumpMinor(v: Version): Version { Release(v.major, v.minor + 1, 0) }
  function BumpPatch(v: Version): Version { Release(v.major, v.minor, v.patch + 1) }

  // Order.

  datatype Ordering = Smaller | Same | Greater

  function CompareNat(a: nat, b: nat): Ordering { if a < b then Smaller else if a == b then Same else Greater }

  function CompareText(a: string, b: string): Ordering
  {
    if a == b then Same else if Less(a, b) then Smaller else Greater
  }

  /** Component by component; a prerelease comes before its release; builds do not matter. */
  function Compare(a: Version, b: Version): Ordering
  {
    if CompareNat(a.major, b.major) != Same then CompareNat(a.major, b.major)
    else if CompareNat(a.minor, b.minor) != Same then CompareNat(a.minor, b.minor)
    else if CompareNat(a.patch, b.patch) != Same then CompareNat(a.patch, b.patch)
    else
      match (a.prerelease, b.prerelease)
      case (None, None) => Same
      case (Some(_), None) => Smaller
      case (None, Some(_)) => Greater
      case (Some(p), Some(q)) => CompareText(p, q)
  }

  predicate Before(a: Version, b: Version) { Compare(a, b) == Smaller }
  predicate NotAfter(a: Version, b: Version) { Compare(a, b) != Greater }

  lemma {:induction false} TextFlips(a: string, b: string)
    ensures CompareText(a, b) == Smaller <==> CompareText(b, a) == Greater
  {
    LessTotal(a, b);
    if Less(a, b) && Less(b, a) {
      LessTransitive(a, b, a);
      LessIrreflexive(a);
      assert false;
    }
    LessIrreflexive(a);
  }

  /** Comparing the other way round turns the answer round. */
  lemma {:induction false} CompareFlips(a: Version, b: Version)
    ensures Compare(a, b) == Smaller <==> Compare(b, a) == Greater
  {
    if a.prerelease.Some? && b.prerelease.Some? { TextFlips(a.prerelease.value, b.prerelease.value); }
  }

  lemma {:induction false} TextChains(a: string, b: string, c: string)
    requires CompareText(a, b) != Greater && CompareText(b, c) != Greater
    ensures CompareText(a, c) != Greater
  {
    if a != b && b != c { LessTransitive(a, b, c); }
  }

  lemma {:induction false} CompareChains(a: Version, b: Version, c: Version)
    requires NotAfter(a, b) && NotAfter(b, c)
    ensures NotAfter(a, c)
  {
    if a.prerelease.Some? && b.prerelease.Some? && c.prerelease.Some? && SameCore(a, b) && SameCore(b, c) {
      TextChains(a.prerelease.value, b.prerelease.value, c.prerelease.value);
    }
  }

  /** A total preorder in which exactly versions that differ in their builds at most are level. */
  lemma {:induction false} TotalPreorder(a: Version, b: Version)
    ensures NotAfter(a, b) || NotAfter(b, a)
    ensures NotAfter(a, b) && NotAfter(b, a) <==> SameCore(a, b) && a.prerelease == b.prerelease
  {
    CompareFlips(a, b);
    CompareFlips(b, a);
  }

  /** A prerelease comes before its release, and prereleases are ordered as texts. */
  predicate EarlierPart(p: Option<string>, q: Option<string>)
  {
    p.Some? && (q.None? || Less(p.value, q.value))
  }

  /** The order is that of the three numbers, the first difference deciding, and then of the prereleases. */
  lemma {:induction false} OrderExactly(a: Version, b: Version)
    ensures Before(a, b) <==>
              || a.major < b.major
              || (a.major == b.major && a.minor < b.minor)
              || (a.major == b.major && a.minor == b.minor && a.patch < b.patch)
              || (SameCore(a, b) && EarlierPart(a.prerelease, b.prerelease))
  {
    if a.prerelease.Some? { LessIrreflexive(a.prerelease.value); }
  }

  // Constraints.

  predicate Matches(c: Constraint, x: Version)
  {
    match c
    case Any => true
    case Exact(v) => SameCore(x, v) && x.prerelease == v.prerelease
    case Caret(v) =>
      if v.major > 0 then NotAfter(v, x) && x.major == v.major
      else if v.minor > 0 then NotAfter(v, x) && x.major == 0 && x.minor == v.minor
      else NotAfter(v, x) && x.major == 0 && x.minor == 0 && x.patch == v.patch
    case Tilde(v) => NotAfter(v, x) && x.major == v.major && x.minor == v.minor
    case Above(v) => Before(v, x)
    case AtLeast(v) => NotAfter(v, x)
    case Below(v) => Before(x, v)
    case AtMost(v) => NotAfter(x, v)
    case Wildcard(major, minor) => x.major == major && (minor.Some? ==> x.minor == minor.value)
  }

  /** Upper and lower bounds are complements, and meet in the exact constraint. */
  lemma {:induction false} BoundsExactly(v: Version, x: Version)
    ensures Matches(Below(v), x) <==> !Matches(AtLeast(v), x)
    ensures Matches(AtMost(v), x) <==> !Matches(Above(v), x)
    ensures Matches(AtLeast(v), x) && Matches(AtMost(v), x) <==> Matches(Exact(v), x)
    ensures Matches(Above(v), x) <==> Before(v, x)
  {
    CompareFlips(v, x);
    CompareFlips(x, v);
    TotalPreorder(v, x);
  }

  /** Among releases a wildcard is the half-open interval up to the next number. */
  lemma {:induction false} WildcardIsRange(major: nat, minor: nat, x: Version)
    requires IsRelease(x)
    ensures Matches(Wildcard(major, None), x) <==> NotAfter(Release(major, 0, 0), x) && Before(x, Release(major + 1, 0, 0))
    ensures Matches(Wildcard(major, Some(minor)), x) <==>
              NotAfter(Release(major, minor, 0), x) && Before(x, Release(major, minor + 1, 0))
  {
  }

  /** The bump that ends the range of a caret constraint. */
  function CaretEnd(v: Version): Version
  {
    if v.major > 0 then BumpMajor(v) else if v.minor > 0 then BumpMinor(v) else BumpPatch(v)
  }

  /** The half-open interval, without the prereleases of its end. */
  predicate InRange(v: Version, x: Version, end: Version)
  {
    NotAfter(v, x) && Before(x, end) && !SameCore(x, end)
  }

  lemma {:induction false} CaretIsRange(v: Version, x: Version)
    ensures Matches(Caret(v), x) <==> InRange(v, x, CaretEnd(v))
  {
  }

  lemma {:induction false} TildeIsRange(v: Version, x: Version)
    ensures Matches(Tilde(v), x) <==> InRange(v, x, BumpMinor(v))
  {
  }

  // The least version of a constraint.

  function MinVersion(c: Constraint): Option<Version>
  {
    match c
    case Exact(v) => Some(v)
    case Caret(v) => Some(v)
    case Tilde(v) => Some(v)
    case AtLeast(v) => Some(v)
    case Above(v) => Some(BumpPatch(v))
    case Wildcard(major, minor) => Some(Release(major, if minor.Some? then minor.value else 0, 0))
    case _ => None
  }

  ghost predicate Least(c: Constraint, m: Version)
  {
    Matches(c, m) && forall x :: Matches(c, x) ==> NotAfter(m, x)
  }

  ghost predicate LeastRelease(c: Constraint, m: Version)
  {
    Matches(c, m) && forall x :: IsRelease(x) && Matches(c, x) ==> NotAfter(m, x)
  }

  lemma {:induction false} MinMatches(c: Constraint)
    requires MinVersion(c).Some?
    ensures Matches(c, MinVersion(c).value)
  {
    TotalPreorder(MinVersion(c).value, MinVersion(c).value);
  }

  /** Where a constraint names its least version, that version is least among all. */
  lemma {:induction false} MinLeast(c: Constraint)
    requires c.Exact? || c.Caret? || c.Tilde? || c.AtLeast?
    ensures Least(c, MinVersion(c).value)
  {
    MinMatches(c);
    forall x | Matches(c, x) ensures NotAfter(MinVersion(c).value, x) {
      TotalPreorder(c.v, x);
    }
  }

  /** A wildcard's is least among the releases only: prereleases of it match too. */
  lemma {:induction false} WildcardMin(major: nat, minor: Option<nat>)
    ensures LeastRelease(Wildcard(major, minor), MinVersion(Wildcard(major, minor)).value)
    ensures !Least(Wildcard(major, minor), MinVersion(Wildcard(major, minor)).value)
  {
    var m := MinVersion(Wildcard(major, minor)).value;
    var x := m.(prerelease := Some("a"));
    assert Matches(Wildcard(major, minor), x) && !NotAfter(m, x);
  }

  /** The next patch is the least release above v exactly when v is a release. */
  lemma {:induction false} AboveMin(v: Version)
    ensures LeastRelease(Above(v), BumpPatch(v)) <==> IsRelease(v)
  {
    if IsRelease(v) {
      forall x | IsRelease(x) && Matches(Above(v), x) ensures NotAfter(BumpPatch(v), x) {
      }
    } else {
      var x := Release(v.major, v.minor, v.patch);
      assert IsRelease(x) && Matches(Above(v), x) && !NotAfter(BumpPatch(v), x);
    }
  }

  // Text.

  function CoreText(v: Version): string
  {
    Print(v.major, 10) + ['.'] + (Print(v.minor, 10) + ['.'] + Print(v.patch, 10))
  }

  function Suffix(mark: char, part: Option<string>): string
  {
    if part.Some? then [mark] + part.value else ""
  }

  function Display(v: Version): string
  {
    CoreText(v) + Suffix('-', v.prerelease) + Suffix('+', v.build)
  }

  function StripV(s: string): string { if s != "" && s[0] == 'v' then s[1..] else s }

  function Tail(s: string, mark: char): Option<string>
  {
    if IndexOf(s, mark) >= 0 then Some(Behind(s, mark)) else None
  }

  /** The three numbers of MAJOR.MINOR.PATCH. */
  function ParseCore(s: string, prerelease: Option<string>, build: Option<string>): Option<Version>
  {
    var rest := Behind(s, '.');
    var last := Behind(rest, '.');
    if IndexOf(s, '.') < 0 || IndexOf(rest, '.') < 0 || IndexOf(last, '.') >= 0 then None
    else
      match (Parse(Text.Before(s, '.'), 10, MAX_U64), Parse(Text.Before(rest, '.'), 10, MAX_U64), Parse(last, 10, MAX_U64))
      case (Some(major), Some(minor), Some(patch)) => Some(Version(major, minor, patch, prerelease, build))
      case _ => None
  }

  function ParseVersion(text: string): Option<Version>
  {
    var s := StripV(Trim(text));
    var front := Text.Before(s, '+');
    ParseCore(Text.Before(front, '-'), Tail(front, '-'), Tail(s, '+'))
  }

  predicate Fits(v: Version) { v.major <= MAX_U64 && v.minor <= MAX_U64 && v.patch <= MAX_U64 }

  lemma {:induction false} DigitsPlain(n: nat)
    ensures forall c :: c in Print(n, 10) ==> c != '.' && c != '-' && c != '+' && c != 'v' && !IsSpace(c)
    ensures Print(n, 10) != ""
  {
    PrintDigits(n, 10);
    DecimalOnly(n);
  }

  lemma {:induction false} DecimalOnly(n: nat)
    ensures forall c :: c in Print(n, 10) ==> '0' <= c <= '9'
  {
    if n >= 10 { DecimalOnly(n / 10); }
  }

  lemma {:induction false} ThreeParts(a: string, b: string, c: string, rest: string)
    requires '.' !in a && '.' !in b && '.' !in c && rest == b + ['.'] + c
    ensures IndexOf(a + ['.'] + rest, '.') >= 0 && IndexOf(rest, '.') >= 0 && IndexOf(c, '.') < 0
    ensures Text.Before(a + ['.'] + rest, '.') == a && Behind(a + ['.'] + rest, '.') == rest
    ensures Text.Before(rest, '.') == b && Behind(rest, '.') == c
  {
    SplitAt(a, '.', rest);
    SplitAt(b, '.', c);
    IndexNone(c, '.');
  }

  lemma {:induction false} CoreRead(v: Version)
    requires Fits(v)
    ensures ParseCore(CoreText(v), v.prerelease, v.build) == Some(v)
  {
    var a, b, c := Print(v.major, 10), Print(v.minor, 10), Print(v.patch, 10);
    DigitsPlain(v.major);
    DigitsPlain(v.minor);
    DigitsPlain(v.patch);
    ThreeParts(a, b, c, b + ['.'] + c);
    PrintParse(v.major, 10, MAX_U64);
    PrintParse(v.minor, 10, MAX_U64);
    PrintParse(v.patch, 10, MAX_U64);
  }

  predicate CorePlain(s: string) { forall k :: 0 <= k < |s| ==> s[k] != '-' && s[k] != '+' }

  lemma {:induction false} CoreIsPlain(v: Version)
    ensures CorePlain(CoreText(v)) && '-' !in CoreText(v) && '+' !in CoreText(v)
  {
    DigitsAre(v.major);
    DigitsAre(v.minor);
    DigitsAre(v.patch);
  }

  lemma {:induction false} DigitsAre(n: nat)
    ensures CorePlain(Print(n, 10))
  {
    DecimalOnly(n);
    forall k | 0 <= k < |Print(n, 10)| ensures Print(n, 10)[k] != '-' && Print(n, 10)[k] != '+' {
      assert Print(n, 10)[k] in Print(n, 10);
    }
  }

  /** A text and an optional part behind a mark come apart again at the mark. */
  lemma {:induction false} SuffixRead(s: string, mark: char, part: Option<string>)
    requires mark !in s
    ensures Text.Before(s + Suffix(mark, part), mark) == s && Tail(s + Suffix(mark, part), mark) == part
  {
    if part.Some? {
      SplitAt(s, mark, part.value);
      assert s + ([mark] + part.value) == s + [mark] + part.value;
    } else {
      IndexNone(s, mark);
      assert s + "" == s;
    }
  }

  /** The text of a version can be read back: no stray plus, no white space at the end. */
  predicate Readable(v: Version)
  {
    && (v.prerelease.Some? ==> '+' !in v.prerelease.value)
    && !IsSpace(Display(v)[|Display(v)| - 1])
  }

  lemma {:induction false} DisplayStarts(v: Version)
    ensures |Display(v)| > 0 && Display(v)[0] == Print(v.major, 10)[0]
    ensures !IsSpace(Display(v)[0]) && Display(v)[0] != 'v'
  {
    DigitsPlain(v.major);
    var a := Print(v.major, 10);
    assert CoreText(v)[0] == a[0] && a[0] in a;
  }

  lemma {:induction false} ReadsBack(v: Version)
    requires Fits(v) && |Display(v)| > 0 && Readable(v)
    ensures ParseVersion(Display(v)) == Some(v)
  {
    var s := Display(v);
    var front := CoreText(v) + Suffix('-', v.prerelease);
    DisplayStarts(v);
    TrimNothing(s);
    CoreRead(v);
    CoreIsPlain(v);
    assert '+' !in front;
    SuffixRead(front, '+', v.build);
    SuffixRead(CoreText(v), '-', v.prerelease);
  }

  /** What follows a mark ends as the whole text ends. */
  lemma {:induction false} TailEnds(s: string, mark: char, tail: string)
    requires Tail(s, mark) == Some(tail) && tail != ""
    ensures |s| > 0 && s[|s| - 1] == tail[|tail| - 1]
  {
  }

  lemma {:induction false} BehindTwice(s: string, mark: char)
    requires IndexOf(s, mark) >= 0
    ensures mark !in Text.Before(s, mark)
  {
    FirstOnly(s, mark);
  }

  lemma {:induction false} TailPart(s: string, mark: char, other: char)
    requires other !in s && Tail(s, mark).Some?
    ensures other !in Tail(s, mark).value
  {
  }

  lemma {:induction false} PlusGone(s: string)
    ensures '+' !in Text.Before(s, '+')
  {
    if IndexOf(s, '+') >= 0 {
      BehindTwice(s, '+');
    } else if '+' in s {
      FoundIfIn(s, '+');
      assert false;
    }
  }

  lemma {:induction false} TrimEndsPlain(s: string)
    requires Trim(s) != ""
    ensures !IsSpace(Trim(s)[|Trim(s)| - 1])
  {
    EndsPlain(TrimStart(s));
  }

  lemma {:induction false} EndsPlain(s: string)
    requires TrimEnd(s) != ""
    ensures !IsSpace(TrimEnd(s)[|TrimEnd(s)| - 1])
  {
    if IsSpace(s[|s| - 1]) { EndsPlain(s[..|s| - 1]); }
  }

  /** A prerelease that was read holds no plus sign. */
  lemma {:induction false} ReadWithoutPlus(s: string, prerelease: Option<string>)
    requires prerelease == Tail(Text.Before(s, '+'), '-')
    ensures prerelease.Some? ==> '+' !in prerelease.value
  {
    PlusGone(s);
    if prerelease.Some? { TailPart(Text.Before(s, '+'), '-', '+'); }
  }

  /** The last part that was read ends as the text does. */
  lemma {:induction false} BuildEnds(s: string, build: Option<string>)
    requires build == Tail(s, '+')
    ensures build.Some? && build.value != "" ==> |s| > 0 && build.value[|build.value| - 1] == s[|s| - 1]
  {
    if build.Some? && build.value != "" { TailEnds(s, '+', build.value); }
  }

  lemma {:induction false} PrereleaseEnds(s: string, front: string, prerelease: Option<string>)
    requires Tail(s, '+') == None && front == Text.Before(s, '+') && prerelease == Tail(front, '-')
    ensures prerelease.Some? && prerelease.value != "" ==>
              |s| > 0 && prerelease.value[|prerelease.value| - 1] == s[|s| - 1]
  {
    WholeBefore(s, '+');
    if prerelease.Some? && prerelease.value != "" { TailEnds(s, '-', prerelease.value); }
  }

  lemma {:induction false} WholeBefore(s: string, mark: char)
    requires Tail(s, mark) == None
    ensures Text.Before(s, mark) == s
  {
  }

  lemma {:induction false} PartsReadable(s: string, v: Version)
    requires s != "" && !IsSpace(s[|s| - 1])
    requires v.prerelease == Tail(Text.Before(s, '+'), '-') && v.build == Tail(s, '+')
    ensures |Display(v)| > 0 && Readable(v)
  {
    ReadWithoutPlus(s, v.prerelease);
    BuildEnds(s, v.build);
    if v.build == None { PrereleaseEnds(s, Text.Before(s, '+'), v.prerelease); }
    hide Display, Tail;
    LastChar(v);
  }

  lemma {:induction false} ParsedEnds(text: string, v: Version, s: string)
    requires ParseVersion(text) == Some(v) && s == StripV(Trim(text))
    ensures s != "" && !IsSpace(s[|s| - 1])
  {
    JustVFails(text);
    TrimEndsPlain(text);
    NotJustV(text, v);
  }

  /** What parsing accepts, with a leading v or white space around it, is readable and fits. */
  lemma {:induction false} ParsedReadable(text: string, v: Version)
    requires ParseVersion(text) == Some(v)
    ensures |Display(v)| > 0 && Readable(v) && Fits(v)
  {
    var s := StripV(Trim(text));
    hide Display, ParseCore, Trim, StripV, Tail, Readable, Fits;
    ParsedEnds(text, v, s);
    ReadParts(s, v);
    PartsReadable(s, v);
    CoreFits(Text.Before(Text.Before(s, '+'), '-'), v);
  }

  lemma {:induction false} CoreFits(s: string, v: Version)
    requires ParseCore(s, v.prerelease, v.build) == Some(v)
    ensures Fits(v)
  {
    var rest := Behind(s, '.');
    ParseBounded(Text.Before(s, '.'), 10, MAX_U64);
    ParseBounded(Text.Before(rest, '.'), 10, MAX_U64);
    ParseBounded(Behind(rest, '.'), 10, MAX_U64);
  }

  lemma {:induction false} ReadParts(s: string, v: Version)
    requires ParseCore(Text.Before(Text.Before(s, '+'), '-'), Tail(Text.Before(s, '+'), '-'), Tail(s, '+')) == Some(v)
    ensures v.prerelease == Tail(Text.Before(s, '+'), '-') && v.build == Tail(s, '+')
  {
  }

  lemma {:induction false} NotJustV(text: string, v: Version)
    requires Trim(text) != "" && ParseVersion(text) == Some(v)
    ensures StripV(Trim(text)) != "" && StripV(Trim(text))[|StripV(Trim(text))| - 1] == Trim(text)[|Trim(text)| - 1]
  {
    JustVFails(text);
    StripEnds(Trim(text));
  }

  lemma {:induction false} StripEnds(t: string)
    ensures StripV(t) != "" ==> StripV(t)[|StripV(t)| - 1] == t[|t| - 1]
  {
  }

  lemma {:induction false} JustVFails(text: string)
    ensures StripV(Trim(text)) == "" ==> ParseVersion(text) == None
  {
    assert Text.Before("", '+') == "" && Text.Before("", '-') == "";
    NothingRead(Tail("", '-'), Tail("", '+'));
  }

  lemma {:induction false} NothingRead(prerelease: Option<string>, build: Option<string>)
    ensures ParseCore("", prerelease, build) == None
  {
  }

  /** How the text of a version ends. */
  lemma {:induction false} LastChar(v: Version)
    ensures |Display(v)| > 0
    ensures v.build.Some? ==> Display(v)[|Display(v)| - 1] == if v.build.value == "" then '+' else v.build.value[|v.build.value| - 1]
    ensures v.build.None? && v.prerelease.Some? ==>
              Display(v)[|Display(v)| - 1] == if v.prerelease.value == "" then '-' else v.prerelease.value[|v.prerelease.value| - 1]
    ensures v.build.None? && v.prerelease.None? ==> !IsSpace(Display(v)[|Display(v)| - 1])
  {
    DisplayStarts(v);
    var c := Print(v.patch, 10);
    DigitsPlain(v.patch);
    assert c[|c| - 1] in c;
  }

  /** Parsing the text of a version gives it back exactly for readable versions. */
  lemma {:induction false} DisplayRoundTrip(v: Version)
    requires Fits(v)
    ensures |Display(v)| > 0
    ensures ParseVersion(Display(v)) == Some(v) <==> Readable(v)
  {
    DisplayStarts(v);
    if Readable(v) { ReadsBack(v); }
    if ParseVersion(Display(v)) == Some(v) { ParsedReadable(Display(v), v); }
  }

  /** A leading v is ignored. */
  lemma {:induction false} LeadingV(v: Version)
    requires Fits(v) && |Display(v)| > 0 && Readable(v)
    ensures ParseVersion("v" + Display(v)) == Some(v)
  {
    var d := Display(v);
    ReadsBack(v);
    DisplayStarts(v);
    TrimNothing(d);
    TrimNothing("v" + d);
    assert ("v" + d)[1..] == d;
  }

  /** Two numbers are no version, nor are four. */
  lemma {:induction false} ThreeNumbers(a: string, b: string, c: string, d: string, p: Option<string>, q: Option<string>)
    requires '.' !in a && '.' !in b && '.' !in c
    ensures ParseCore(a + ['.'] + b, p, q) == None && ParseCore(a + ['.'] + (b + ['.'] + (c + ['.'] + d)), p, q) == None
  {
    SplitAt(a, '.', b);
    IndexNone(b, '.');
    SplitAt(a, '.', b + ['.'] + (c + ['.'] + d));
    SplitAt(b, '.', c + ['.'] + d);
    SplitAt(c, '.', d);
    assert IndexOf(c + ['.'] + d, '.') >= 0;
  }

  /** So every version that parsing accepts survives being displayed and parsed again. */
  lemma {:induction false} ParsedRoundTrip(text: string, v: Version)
    requires ParseVersion(text) == Some(v)
    ensures ParseVersion(Display(v)) == Some(v)
  {
    ParsedReadable(text, v);
    DisplayRoundTrip(v);
  }
}
