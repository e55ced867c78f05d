/**
 Which pre-releases to delete: the order of version tags, held against the
 precedence of Semantic Versioning 2.0.0 (section 11), and the selection built on it.
 */
module ReleasePruning {
  import opened Strings
  import opened Wrappers

  // ---------- Lexicographic order

  predicate LexLess<T(==)>(less: (T, T) -> bool, a: seq<T>, b: seq<T>) {
    b != [] && (a == [] || less(a[0], b[0]) || (a[0] == b[0] && LexLess(less, a[1..], b[1..])))
  }

  ghost predicate StrictTotal<T(!new)>(less: (T, T) -> bool) {
    && (forall x :: !less(x, x))
    && (forall x, y, z :: less(x, y) && less(y, z) ==> less(x, z))
    && (forall x, y :: less(x, y) || x == y || less(y, x))
  }

  lemma {:induction false} LexIrreflexive<T(!new)>(less: (T, T) -> bool, a: seq<T>)
    requires StrictTotal(less)
    ensures !LexLess(less, a, a)
  {
    if a != [] { LexIrreflexive(less, a[1..]); }
  }

  lemma {:induction false} LexTransitive<T(!new)>(less: (T, T) -> bool, a: seq<T>, b: seq<T>, c: seq<T>)
    requires StrictTotal(less) && LexLess(less, a, b) && LexLess(less, b, c)
    ensures LexLess(less, a, c)
  {
    if a != [] && a[0] == b[0] && b[0] == c[0] && !less(a[0], b[0]) && !less(b[0], c[0]) {
      LexTransitive(less, a[1..], b[1..], c[1..]);
    }
  }

  lemma {:induction false} LexTotal<T(!new)>(less: (T, T) -> bool, a: seq<T>, b: seq<T>)
    requires StrictTotal(less)
    ensures LexLess(less, a, b) || a == b || LexLess(less, b, a)
  {
    if a != [] && b != [] && a[0] == b[0] {
      LexTotal(less, a[1..], b[1..]);
      assert a == [a[0]] + a[1..] && b == [b[0]] + b[1..];
    }
  }

  /** Equal up to some place, and there the first is shorter or smaller. */
  ghost predicate DiffersBelow<T>(less: (T, T) -> bool, a: seq<T>, b: seq<T>, i: nat) {
    && i <= |a| && i < |b|
    && a[..i] == b[..i]
    && (i == |a| || less(a[i], b[i]))
  }

  /** The recursive order is the order of the first difference. */
  lemma {:induction false} LexIsFirstDifference<T(!new)>(less: (T, T) -> bool, a: seq<T>, b: seq<T>)
    ensures LexLess(less, a, b) <==> exists i :: DiffersBelow(less, a, b, i)
  {
    if b != [] && a != [] && a[0] == b[0] {
      LexIsFirstDifference(less, a[1..], b[1..]);
      if i: nat :| DiffersBelow(less, a[1..], b[1..], i) {
        assert a[..i + 1] == [a[0]] + a[1..][..i] && b[..i + 1] == [b[0]] + b[1..][..i];
        assert DiffersBelow(less, a, b, i + 1);
      }
      if i: nat :| DiffersBelow(less, a, b, i) && i > 0 {
        assert a[1..][..i - 1] == a[..i][1..] && b[1..][..i - 1] == b[..i][1..];
        assert DiffersBelow(less, a[1..], b[1..], i - 1);
      }
      if DiffersBelow(less, a, b, 0) {
        assert less(a[0], b[0]);
      }
    } else {
      if LexLess(less, a, b) { assert DiffersBelow(less, a, b, 0); }
      if i: nat :| DiffersBelow(less, a, b, i) && i > 0 {
        assert false;
      }
    }
  }

  // ---------- The key of a tag

  /** An identifier of a pre-release: numbers sort below text. */
  datatype Atom = Num(n: nat) | Text(s: string)

  datatype Key = Key(nums: seq<nat>, isFinal: bool, pre: seq<Atom>)

  predicate CharLess(c: char, d: char) {
    c < d
  }

  predicate NatLess(m: nat, n: nat) {
    m < n
  }

  predicate AtomLess(a: Atom, b: Atom) {
    match (a, b)
    case (Num(m), Num(n)) => m < n
    case (Num(_), Text(_)) => true
    case (Text(_), Num(_)) => false
    case (Text(s), Text(t)) => LexLess(CharLess, s, t)
  }

  predicate KeyLess(a: Key, b: Key) {
    LexLess(NatLess, a.nums, b.nums) ||
    (a.nums == b.nums &&
     ((!a.isFinal && b.isFinal) || (a.isFinal == b.isFinal && LexLess(AtomLess, a.pre, b.pre))))
  }

  function NumberOf(part: string): nat {
    if IsDigits(part) then ToNat(part) else 0
  }

  function AtomOf(part: string): Atom {
    if IsDigits(part) then Num(ToNat(part)) else Text(part)
  }

  function Numbers(parts: seq<string>): (r: seq<nat>)
    ensures |r| == |parts|
    ensures forall i :: 0 <= i < |parts| ==> r[i] == NumberOf(parts[i])
  {
    seq(|parts|, i requires 0 <= i < |parts| => NumberOf(parts[i]))
  }

  function Atoms(parts: seq<string>): (r: seq<Atom>)
    ensures |r| == |parts|
    ensures forall i :: 0 <= i < |parts| ==> r[i] == AtomOf(parts[i])
  {
    seq(|parts|, i requires 0 <= i < |parts| => AtomOf(parts[i]))
  }

  function Untagged(tag: string): string {
    if tag != "" && tag[0] == 'v' then tag[1..] else tag
  }

  /** The part of a tag before its first hyphen, and the part after it. */
  function CorePart(tag: string): string {
    UpTo(Untagged(tag), '-')
  }

  function PrePart(tag: string): string {
    var text := Untagged(tag);
    if |CorePart(tag)| == |text| then "" else text[|CorePart(tag)| + 1..]
  }

  function CoreNumbers(core: string): (r: seq<nat>)
    ensures |r| == 3
  {
    (Numbers(Split(core, '.')) + [0, 0, 0])[..3]
  }

  function VersionKey(tag: string): Key {
    var pre := PrePart(tag);
    Key(CoreNumbers(CorePart(tag)), pre == "", if pre == "" then [] else Atoms(Split(pre, '.')))
  }

  method ComputeVersionKey(tag: string) returns (k: Key)
    ensures k == VersionKey(tag)
  {
    hide UpTo, Split, IsDigits, Numbers, ToNat;
    var text := Untagged(tag);
    var core := UpTo(text, '-');
    var pre := if |core| == |text| then "" else text[|core| + 1..];
    var nums := CoreNumbers(core);
    if pre == "" {
      return Key(nums, true, []);
    }
    var parts := Split(pre, '.');
    var preKey := ComputeAtoms(parts);
    return Key(nums, false, preKey);
  }

  method ComputeAtoms(parts: seq<string>) returns (preKey: seq<Atom>)
    ensures preKey == Atoms(parts)
  {
    preKey := [];
    for n := 0 to |parts|
      invariant preKey == Atoms(parts[..n])
    {
      if IsDigits(parts[n]) {
        preKey := preKey + [Num(ToNat(parts[n]))];
      } else {
        preKey := preKey + [Text(parts[n])];
      }
    }
    assert parts[..|parts|] == parts;
  }

  lemma AtomsAreOrdered()
    ensures StrictTotal(AtomLess)
  {
    assert StrictTotal(CharLess);
    forall x: Atom ensures !AtomLess(x, x) {
      if x.Text? { LexIrreflexive(CharLess, x.s); }
    }
    forall x: Atom, y: Atom, z: Atom | AtomLess(x, y) && AtomLess(y, z) ensures AtomLess(x, z) {
      if x.Text? { LexTransitive(CharLess, x.s, y.s, z.s); }
    }
    forall x: Atom, y: Atom ensures AtomLess(x, y) || x == y || AtomLess(y, x) {
      if x.Text? && y.Text? { LexTotal(CharLess, x.s, y.s); }
    }
  }

  /** Keys are totally ordered: any two distinct ones, one way round, and transitively. */
  lemma KeysAreOrdered(a: Key, b: Key, c: Key)
    ensures !KeyLess(a, a)
    ensures KeyLess(a, b) && KeyLess(b, c) ==> KeyLess(a, c)
    ensures KeyLess(a, b) || a == b || KeyLess(b, a)
  {
    assert StrictTotal(NatLess);
    AtomsAreOrdered();
    LexIrreflexive(NatLess, a.nums);
    LexIrreflexive(AtomLess, a.pre);
    LexTotal(NatLess, a.nums, b.nums);
    LexTotal(AtomLess, a.pre, b.pre);
    if LexLess(NatLess, a.nums, b.nums) && LexLess(NatLess, b.nums, c.nums) {
      LexTransitive(NatLess, a.nums, b.nums, c.nums);
    }
    if LexLess(AtomLess, a.pre, b.pre) && LexLess(AtomLess, b.pre, c.pre) {
      LexTransitive(AtomLess, a.pre, b.pre, c.pre);
    }
  }

  // ---------- Semantic Versioning

  datatype SemVer = SemVer(major: nat, minor: nat, patch: nat, pre: seq<Atom>)

  predicate IdentifierChar(c: char) {
    IsDigit(c) || 'A' <= c <= 'Z' || 'a' <= c <= 'z' || c == '-'
  }

  /** A pre-release identifier: a number, or ASCII alphanumerics and hyphens that are not one. */
  ghost predicate IsIdentifier(a: Atom) {
    a.Num? || (a.s != "" && !IsDigits(a.s) && forall i :: 0 <= i < |a.s| ==> IdentifierChar(a.s[i]))
  }

  ghost predicate IsSemVer(v: SemVer) {
    forall i :: 0 <= i < |v.pre| ==> IsIdentifier(v.pre[i])
  }

  function Rendered(a: Atom): string {
    match a case Num(n) => Digits(n) case Text(s) => s
  }

  function RenderedAll(pre: seq<Atom>): (r: seq<string>)
    ensures |r| == |pre|
    ensures forall i :: 0 <= i < |pre| ==> r[i] == Rendered(pre[i])
  {
    seq(|pre|, i requires 0 <= i < |pre| => Rendered(pre[i]))
  }

  function Core(v: SemVer): string {
    Join([Digits(v.major), Digits(v.minor), Digits(v.patch)], '.')
  }

  /** The tag of a version: the three numbers, then the identifiers if there are any. */
  function Tag(v: SemVer): string {
    "v" + Core(v) + (if v.pre == [] then "" else "-" + Join(RenderedAll(v.pre), '.'))
  }

  /** Identifier precedence, section 11.4.1 to 11.4.3. */
  ghost predicate IdentifierBelow(a: Atom, b: Atom) {
    || (a.Num? && b.Num? && a.n < b.n)
    || (a.Num? && b.Text?)
    || (a.Text? && b.Text? && exists i :: DiffersBelow(CharLess, a.s, b.s, i))
  }

  /**
   Precedence, section 11.2 to 11.4: by major, minor and patch number; a pre-release is below its
   own normal version; two pre-releases by the first identifier that differs, or by having more.
   */
  ghost predicate Below(a: SemVer, b: SemVer) {
    || a.major < b.major
    || (a.major == b.major && a.minor < b.minor)
    || (a.major == b.major && a.minor == b.minor && a.patch < b.patch)
    || (a.major == b.major && a.minor == b.minor && a.patch == b.patch
        && ((a.pre != [] && b.pre == []) ||
            (a.pre != [] && b.pre != [] && exists i :: DiffersBelow(IdentifierOrder, a.pre, b.pre, i))))
  }

  /** `IdentifierBelow` as a function value. */
  ghost predicate IdentifierOrder(a: Atom, b: Atom) {
    IdentifierBelow(a, b)
  }

  function KeyOf(v: SemVer): Key {
    Key([v.major, v.minor, v.patch], v.pre == [], v.pre)
  }

  lemma JoinThree(a: string, b: string, c: string)
    ensures Join([a, b, c], '.') == a + "." + b + "." + c
  {
    assert [a, b, c][1..] == [b, c] && [b, c][1..] == [c];
    assert Join([c], '.') == c && Join([b, c], '.') == b + "." + c;
  }

  lemma CoreHasNoHyphen(v: SemVer)
    ensures '-' !in Core(v)
  {
    JoinThree(Digits(v.major), Digits(v.minor), Digits(v.patch));
  }

  lemma AtomOfRendered(a: Atom)
    requires IsIdentifier(a)
    ensures AtomOf(Rendered(a)) == a && '.' !in Rendered(a) && Rendered(a) != ""
  {
    if a.Num? { ToNatOfDigits(a.n); }
  }

  lemma AtomsOfRendered(pre: seq<Atom>)
    requires pre != [] && forall i :: 0 <= i < |pre| ==> IsIdentifier(pre[i])
    ensures Join(RenderedAll(pre), '.') != ""
    ensures Atoms(Split(Join(RenderedAll(pre), '.'), '.')) == pre
  {
    forall i | 0 <= i < |pre|
      ensures AtomOf(Rendered(pre[i])) == pre[i] && '.' !in RenderedAll(pre)[i] && RenderedAll(pre)[i] != ""
    {
      AtomOfRendered(pre[i]);
    }
    SplitOfJoin(RenderedAll(pre), '.');
  }

  lemma NumbersOfCore(v: SemVer)
    ensures CoreNumbers(Core(v)) == [v.major, v.minor, v.patch]
  {
    var parts := [Digits(v.major), Digits(v.minor), Digits(v.patch)];
    SplitOfJoin(parts, '.');
    ToNatOfDigits(v.major);
    ToNatOfDigits(v.minor);
    ToNatOfDigits(v.patch);
  }

  function PreText(v: SemVer): string {
    if v.pre == [] then "" else Join(RenderedAll(v.pre), '.')
  }

  lemma PartsOfTag(v: SemVer)
    ensures CorePart(Tag(v)) == Core(v) && PrePart(Tag(v)) == PreText(v)
  {
    hide Core, UpTo, Join, RenderedAll;
    var rest := if v.pre == [] then "" else "-" + PreText(v);
    var text := Core(v) + rest;
    assert Tag(v) == "v" + text && Untagged(Tag(v)) == text;
    CoreHasNoHyphen(v);
    UpToOfConcat(Core(v), rest, '-');
    if v.pre != [] {
      assert text[|Core(v)| + 1..] == PreText(v);
    }
  }

  /** Parsing undoes rendering: the key of a well-formed tag is its version. */
  lemma KeyOfTag(v: SemVer)
    requires IsSemVer(v)
    ensures VersionKey(Tag(v)) == KeyOf(v)
  {
    hide CorePart, PrePart, Tag, Core, CoreNumbers, Split, Join, Atoms, RenderedAll, IsIdentifier;
    PartsOfTag(v);
    NumbersOfCore(v);
    if v.pre != [] { AtomsOfRendered(v.pre); }
  }

  lemma IdentifiersAgree(a: Atom, b: Atom)
    ensures IdentifierOrder(a, b) <==> AtomLess(a, b)
  {
    if a.Text? && b.Text? { LexIsFirstDifference(CharLess, a.s, b.s); }
  }

  lemma NumbersAgree(a: SemVer, b: SemVer)
    ensures LexLess(NatLess, [a.major, a.minor, a.patch], [b.major, b.minor, b.patch])
      <==> (a.major < b.major
            || (a.major == b.major && (a.minor < b.minor || (a.minor == b.minor && a.patch < b.patch))))
  {
    LexCons(a.patch, [], b.patch, []);
    LexCons(a.minor, [a.patch], b.minor, [b.patch]);
    LexCons(a.major, [a.minor, a.patch], b.major, [b.minor, b.patch]);
    assert [a.patch] + [] == [a.patch] && [b.patch] + [] == [b.patch];
  }

  lemma LexCons(x: nat, s: seq<nat>, y: nat, t: seq<nat>)
    ensures LexLess(NatLess, [x] + s, [y] + t) <==> (x < y || (x == y && LexLess(NatLess, s, t)))
  {
    assert ([x] + s)[1..] == s && ([y] + t)[1..] == t;
  }

  /** The order of the keys is the precedence of the versions, in both directions. */
  lemma KeyOrderIsPrecedence(a: SemVer, b: SemVer)
    requires IsSemVer(a) && IsSemVer(b)
    ensures KeyLess(VersionKey(Tag(a)), VersionKey(Tag(b))) <==> Below(a, b)
  {
    KeyOfTag(a);
    KeyOfTag(b);
    NumbersAgree(a, b);
    forall x: Atom, y: Atom ensures IdentifierOrder(x, y) <==> AtomLess(x, y) { IdentifiersAgree(x, y); }
    LexIsFirstDifference(AtomLess, a.pre, b.pre);
    forall i ensures DiffersBelow(IdentifierOrder, a.pre, b.pre, i) <==> DiffersBelow(AtomLess, a.pre, b.pre, i) {
    }
  }

  // ---------- The selection

  datatype Release = Release(tag: string, created: Option<string>, prerelease: bool, draft: bool)

  function CreatedAt(r: Release): string {
    if r.created.Some? then r.created.value else ""
  }

  /** By version, and between tags of the same version by publication time. */
  predicate Older(a: Release, b: Release) {
    KeyLess(VersionKey(a.tag), VersionKey(b.tag)) ||
    (VersionKey(a.tag) == VersionKey(b.tag) && LexLess(CharLess, CreatedAt(a), CreatedAt(b)))
  }

  /** The published releases that are pre-releases, or those that are not. */
  function Pick(releases: seq<Release>, prerelease: bool): (r: seq<Release>)
    ensures forall x :: x in r <==> x in releases && !x.draft && x.prerelease == prerelease
  {
    if releases == [] then []
    else
      assert forall x :: x in releases <==> x == releases[0] || x in releases[1..];
      (if !releases[0].draft && releases[0].prerelease == prerelease then [releases[0]] else [])
      + Pick(releases[1..], prerelease)
  }

  function InsertDown(x: Release, s: seq<Release>): (r: seq<Release>)
    ensures |r| == |s| + 1
    ensures forall y :: y in r <==> y == x || y in s
  {
    if s == [] || !Older(x, s[0]) then [x] + s
    else
      assert forall y :: y in s <==> y == s[0] || y in s[1..];
      [s[0]] + InsertDown(x, s[1..])
  }

  /** The stable sort with `reverse=True`: newest first, ties in their original order. */
  function SortDown(s: seq<Release>): (r: seq<Release>)
    ensures |r| == |s|
    ensures forall y :: y in r <==> y in s
  {
    if s == [] then []
    else
      assert forall y :: y in s <==> y == s[0] || y in s[1..];
      InsertDown(s[0], SortDown(s[1..]))
  }

  function HighestKey(s: seq<Release>): Key
    requires s != []
  {
    var first := VersionKey(s[0].tag);
    if |s| == 1 then first
    else
      var rest := HighestKey(s[1..]);
      if KeyLess(first, rest) then rest else first
  }

  function Keep(releases: seq<Release>, current: Option<string>): set<string> {
    var prereleases, stables := SortDown(Pick(releases, true)), Pick(releases, false);
    var newest := if prereleases == [] then {} else {prereleases[0].tag};
    var keep := newest + if current.Some? && current.value != "" then {current.value} else {};
    if stables == [] then keep
    else set t | t in keep && (current == Some(t) || KeyLess(HighestKey(stables), VersionKey(t)))
  }

  function TagsOutside(s: seq<Release>, keep: set<string>): (r: seq<string>)
    ensures forall t :: t in r <==> exists x :: x in s && x.tag == t && t !in keep
  {
    if s == [] then []
    else
      assert forall x :: x in s <==> x == s[0] || x in s[1..];
      (if s[0].tag in keep then [] else [s[0].tag]) + TagsOutside(s[1..], keep)
  }

  /** The tags to delete, newest first. */
  function Superseded(releases: seq<Release>, current: Option<string>): seq<string> {
    TagsOutside(SortDown(Pick(releases, true)), Keep(releases, current))
  }

  // ---------- The order behind it

  lemma OlderIsWeakOrder(a: Release, b: Release, c: Release)
    ensures !Older(a, a)
    ensures Older(a, b) && Older(b, c) ==> Older(a, c)
    ensures !Older(a, b) && !Older(b, c) ==> !Older(a, c)
  {
    hide VersionKey, KeyLess, LexLess;
    assert StrictTotal(CharLess) by { CharsAreOrdered(); }
    KeysAreOrdered(VersionKey(a.tag), VersionKey(b.tag), VersionKey(c.tag));
    KeysAreOrdered(VersionKey(c.tag), VersionKey(b.tag), VersionKey(a.tag));
    KeysAreOrdered(VersionKey(a.tag), VersionKey(c.tag), VersionKey(b.tag));
    KeysAreOrdered(VersionKey(b.tag), VersionKey(c.tag), VersionKey(a.tag));
    KeysAreOrdered(VersionKey(b.tag), VersionKey(a.tag), VersionKey(c.tag));
    TimesAreOrdered(CreatedAt(a), CreatedAt(b), CreatedAt(c));
    TimesAreOrdered(CreatedAt(c), CreatedAt(b), CreatedAt(a));
    TimesAreOrdered(CreatedAt(a), CreatedAt(c), CreatedAt(b));
  }

  lemma CharsAreOrdered()
    ensures StrictTotal(CharLess)
  {
  }

  lemma TimesAreOrdered(a: string, b: string, c: string)
    ensures !LexLess(CharLess, a, a)
    ensures LexLess(CharLess, a, b) && LexLess(CharLess, b, c) ==> LexLess(CharLess, a, c)
    ensures LexLess(CharLess, a, b) || a == b || LexLess(CharLess, b, a)
    ensures LexLess(CharLess, b, c) || b == c || LexLess(CharLess, c, b)
  {
    CharsAreOrdered();
    LexIrreflexive(CharLess, a);
    LexTotal(CharLess, a, b);
    LexTotal(CharLess, b, c);
    if LexLess(CharLess, a, b) && LexLess(CharLess, b, c) { LexTransitive(CharLess, a, b, c); }
  }

  /** Newest first: no entry is older than a later one. */
  ghost predicate Descending(s: seq<Release>) {
    forall i, j :: 0 <= i < j < |s| ==> !Older(s[i], s[j])
  }

  lemma {:induction false} InsertKeepsDescending(x: Release, s: seq<Release>)
    requires Descending(s)
    ensures Descending(InsertDown(x, s))
  {
    hide Older;
    if s == [] {
    } else if !Older(x, s[0]) {
      forall j | 0 <= j < |s| ensures !Older(x, s[j]) { if j > 0 { OlderIsWeakOrder(x, s[0], s[j]); } }
    } else {
      InsertKeepsDescending(x, s[1..]);
      var rest := InsertDown(x, s[1..]);
      forall j | 0 <= j < |rest| ensures !Older(s[0], rest[j]) {
        assert rest[j] in rest;
        if rest[j] == x {
          OlderIsWeakOrder(x, s[0], x);
        } else {
          var n :| 0 <= n < |s[1..]| && s[1..][n] == rest[j];
          assert s[n + 1] == rest[j];
        }
      }
    }
  }

  lemma {:induction false} SortDescends(s: seq<Release>)
    ensures Descending(SortDown(s))
  {
    if s != [] {
      SortDescends(s[1..]);
      InsertKeepsDescending(s[0], SortDown(s[1..]));
    }
  }

  /** The kept pre-release is the newest: no published pre-release is newer. */
  lemma FirstIsNewest(s: seq<Release>, x: Release)
    requires x in s
    ensures !Older(SortDown(s)[0], x)
  {
    hide Older;
    SortDescends(s);
    var sorted := SortDown(s);
    var i :| 0 <= i < |sorted| && sorted[i] == x;
    if i == 0 { OlderIsWeakOrder(x, x, x); }
  }

  lemma {:induction false} AboveHighest(s: seq<Release>, k: Key)
    requires s != []
    ensures KeyLess(HighestKey(s), k) <==> forall x :: x in s ==> KeyLess(VersionKey(x.tag), k)
  {
    hide KeyLess, VersionKey;
    assert s[0] in s;
    if |s| > 1 {
      AboveHighest(s[1..], k);
      var first, rest := VersionKey(s[0].tag), HighestKey(s[1..]);
      KeysAreOrdered(first, rest, k);
      KeysAreOrdered(rest, first, k);
      assert forall x :: x in s <==> x == s[0] || x in s[1..];
    } else {
      assert forall x :: x in s <==> x == s[0];
    }
  }

  // ---------- What is deleted, exactly

  ghost predicate UniqueTags(releases: seq<Release>) {
    forall x, y :: x in releases && y in releases && x.tag == y.tag ==> x == y
  }

  /** A version above every stable release. */
  ghost predicate AboveStables(releases: seq<Release>, tag: string) {
    forall x :: x in releases && !x.draft && !x.prerelease ==> KeyLess(VersionKey(x.tag), VersionKey(tag))
  }

  ghost predicate IsNewest(releases: seq<Release>, x: Release) {
    var sorted := SortDown(Pick(releases, true));
    sorted != [] && x == sorted[0]
  }

  /** The newest pre-release and the tag just published, as long as no stable has caught up. */
  ghost predicate Survives(releases: seq<Release>, current: Option<string>, x: Release) {
    && (IsNewest(releases, x) || (current == Some(x.tag) && x.tag != ""))
    && (current == Some(x.tag) || AboveStables(releases, x.tag))
  }

  lemma KeptTags(releases: seq<Release>, current: Option<string>, x: Release)
    requires UniqueTags(releases) && x in Pick(releases, true)
    ensures x.tag in Keep(releases, current) <==> Survives(releases, current, x)
  {
    hide KeyLess, VersionKey, HighestKey;
    var stables := Pick(releases, false);
    if stables != [] { AboveHighest(stables, VersionKey(x.tag)); }
    var sorted := SortDown(Pick(releases, true));
    assert sorted[0] in sorted;
  }

  /**
   With unique tags the deleted ones are exactly those of the published pre-releases that do not
   survive: no stable release and no draft is ever among them.
   */
  lemma DeletedExactly(releases: seq<Release>, current: Option<string>, x: Release)
    requires UniqueTags(releases) && x in releases
    ensures x.tag in Superseded(releases, current)
      <==> (!x.draft && x.prerelease && !Survives(releases, current, x))
  {
    hide Survives, Keep;
    if x in Pick(releases, true) { KeptTags(releases, current, x); }
    if x.tag in Superseded(releases, current) {
      var y :| y in SortDown(Pick(releases, true)) && y.tag == x.tag && x.tag !in Keep(releases, current);
      assert y in releases;
    }
  }

  /** Every survivor but the current tag is the highest pre-release, and above every stable. */
  lemma SurvivorIsHighest(releases: seq<Release>, current: Option<string>, x: Release, y: Release)
    requires UniqueTags(releases) && x in Pick(releases, true) && y in Pick(releases, true)
    requires x.tag !in Superseded(releases, current) && current != Some(x.tag)
    ensures !Older(x, y) && AboveStables(releases, x.tag)
  {
    hide Older, Superseded;
    DeletedExactly(releases, current, x);
    FirstIsNewest(Pick(releases, true), y);
  }

  // ---------- Applying it twice

  function Undeleted(s: seq<Release>, deleted: seq<string>): (r: seq<Release>)
    ensures forall x :: x in r <==> x in s && x.tag !in deleted
  {
    if s == [] then []
    else
      assert forall x :: x in s <==> x == s[0] || x in s[1..];
      (if s[0].tag in deleted then [] else [s[0]]) + Undeleted(s[1..], deleted)
  }

  lemma {:induction false} PickUndeleted(s: seq<Release>, deleted: seq<string>, prerelease: bool)
    ensures Pick(Undeleted(s, deleted), prerelease) == Undeleted(Pick(s, prerelease), deleted)
  {
    if s != [] {
      PickUndeleted(s[1..], deleted, prerelease);
      PickOfCons(s[0], Undeleted(s[1..], deleted), prerelease);
      UndeletedOfCons(s[0], Pick(s[1..], prerelease), deleted);
      PickOfCons(s[0], s[1..], prerelease);
      UndeletedOfCons(s[0], s[1..], deleted);
      assert s == [s[0]] + s[1..];
      hide Pick, Undeleted;
    }
  }

  lemma PickOfCons(x: Release, s: seq<Release>, prerelease: bool)
    ensures Pick([x] + s, prerelease)
         == if !x.draft && x.prerelease == prerelease then [x] + Pick(s, prerelease) else Pick(s, prerelease)
  {
    assert ([x] + s)[1..] == s && [] + Pick(s, prerelease) == Pick(s, prerelease);
  }

  lemma UndeletedOfCons(x: Release, s: seq<Release>, deleted: seq<string>)
    ensures Undeleted([x] + s, deleted)
         == if x.tag in deleted then Undeleted(s, deleted) else [x] + Undeleted(s, deleted)
  {
    assert ([x] + s)[1..] == s && [] + Undeleted(s, deleted) == Undeleted(s, deleted);
  }

  lemma {:induction false} InsertUndeleted(x: Release, s: seq<Release>, deleted: seq<string>)
    requires Descending(s)
    ensures Undeleted(InsertDown(x, s), deleted)
         == if x.tag in deleted then Undeleted(s, deleted) else InsertDown(x, Undeleted(s, deleted))
  {
    if s == [] || !Older(x, s[0]) {
      assert InsertDown(x, s) == [x] + s;
      hide InsertDown, Undeleted, Older;
      UndeletedOfCons(x, s, deleted);
      InsertInFront(x, s, deleted);
    } else {
      var rest := s[1..];
      assert s == [s[0]] + rest && InsertDown(x, s) == [s[0]] + InsertDown(x, rest);
      InsertUndeleted(x, rest, deleted);
      InsertBehind(x, s[0], Undeleted(rest, deleted));
      UndeletedOfCons(s[0], rest, deleted);
      UndeletedOfCons(s[0], InsertDown(x, rest), deleted);
      hide InsertDown, Undeleted, Older;
    }
  }

  lemma InsertBehind(x: Release, y: Release, s: seq<Release>)
    requires Older(x, y)
    ensures InsertDown(x, [y] + s) == [y] + InsertDown(x, s)
  {
    hide Older;
    assert ([y] + s)[1..] == s;
  }

  /** What is not older than the front of a sorted list is not older than anything left of it. */
  lemma InsertInFront(x: Release, s: seq<Release>, deleted: seq<string>)
    requires Descending(s) && (s == [] || !Older(x, s[0]))
    ensures InsertDown(x, Undeleted(s, deleted)) == [x] + Undeleted(s, deleted)
  {
    hide Older;
    var kept := Undeleted(s, deleted);
    if kept != [] {
      assert kept[0] in kept;
      var i :| 0 <= i < |s| && s[i] == kept[0];
      if i > 0 { OlderIsWeakOrder(x, s[0], s[i]); }
    }
  }

  lemma {:induction false} SortUndeleted(s: seq<Release>, deleted: seq<string>)
    ensures SortDown(Undeleted(s, deleted)) == Undeleted(SortDown(s), deleted)
  {
    if s != [] {
      SortUndeleted(s[1..], deleted);
      SortDescends(s[1..]);
      InsertUndeleted(s[0], SortDown(s[1..]), deleted);
      var kept := Undeleted(s[1..], deleted);
      assert ([s[0]] + kept)[1..] == kept && [] + kept == kept;
    }
  }

  /** Pruning what is left prunes nothing more. */
  lemma PruningIsIdempotent(releases: seq<Release>, current: Option<string>)
    requires UniqueTags(releases)
    ensures Superseded(Undeleted(releases, Superseded(releases, current)), current) == []
  {
    hide Superseded;
    var left := Undeleted(releases, Superseded(releases, current));
    forall x | x in left ensures x.tag !in Superseded(left, current) {
      SurvivesAgain(releases, current, x);
    }
    if Superseded(left, current) != [] {
      var x := DeletedIsARelease(left, current, Superseded(left, current)[0]);
    }
  }

  lemma DeletedIsARelease(releases: seq<Release>, current: Option<string>, tag: string) returns (x: Release)
    requires tag in Superseded(releases, current)
    ensures x in releases && x.tag == tag
  {
    x :| x in SortDown(Pick(releases, true)) && x.tag == tag;
  }

  lemma SurvivesAgain(releases: seq<Release>, current: Option<string>, x: Release)
    requires UniqueTags(releases)
    requires x in Undeleted(releases, Superseded(releases, current))
    ensures x.tag !in Superseded(Undeleted(releases, Superseded(releases, current)), current)
  {
    hide Superseded, KeyLess, VersionKey;
    var deleted := Superseded(releases, current);
    var left := Undeleted(releases, deleted);
    DeletedExactly(releases, current, x);
    DeletedExactly(left, current, x);
    hide Superseded, IsNewest, Undeleted;
    if IsNewest(releases, x) && !x.draft && x.prerelease {
      NewestStays(releases, deleted, x);
    }
  }

  lemma NewestStays(releases: seq<Release>, deleted: seq<string>, x: Release)
    requires IsNewest(releases, x) && x.tag !in deleted
    ensures IsNewest(Undeleted(releases, deleted), x)
  {
    hide SortDown, Pick;
    PickUndeleted(releases, deleted, true);
    SortUndeleted(Pick(releases, true), deleted);
  }

  method ComputeSuperseded(releases: seq<Release>, current: Option<string>) returns (r: seq<string>)
    ensures r == Superseded(releases, current)
  {
    var prereleases, stables := SortDown(Pick(releases, true)), Pick(releases, false);
    hide SortDown, Pick, KeyLess, VersionKey, HighestKey;
    var keep: set<string> := if prereleases == [] then {} else {prereleases[0].tag};
    if current.Some? && current.value != "" {
      keep := keep + {current.value};
    }
    assert keep == keep + {};
    if stables != [] {
      var highest := HighestKey(stables);
      keep := set t | t in keep && (current == Some(t) || KeyLess(highest, VersionKey(t)));
    }
    r := TagsOutside(prereleases, keep);
  }

  // ---------- The order and the list, in their own terms

  /** Older is lower in precedence, or of the same version and created before, by the text of the date. */
  lemma OlderByPrecedence(a: Release, b: Release, v: SemVer, w: SemVer)
    requires IsSemVer(v) && IsSemVer(w) && a.tag == Tag(v) && b.tag == Tag(w)
    requires a.created.Some? && b.created.Some?
    ensures Older(a, b)
      <==> Below(v, w) || (v == w && exists i :: DiffersBelow(CharLess, a.created.value, b.created.value, i))
  {
    KeyOrderIsPrecedence(v, w);
    KeyOfTag(v);
    KeyOfTag(w);
    LexIsFirstDifference(CharLess, a.created.value, b.created.value);
    hide Below, LexLess, Tag, IsSemVer, KeyLess, VersionKey, DiffersBelow;
  }

  /** A release without a date counts as created before all others of its version. */
  lemma UndatedIsOldest(a: Release, b: Release)
    requires a.tag == b.tag && a.created.None?
    ensures Older(a, b) <==> b.created.Some? && b.created.value != ""
  {
    KeysAreOrdered(VersionKey(a.tag), VersionKey(a.tag), VersionKey(a.tag));
    hide KeyLess, VersionKey;
  }

  /** The sort is stable: what is in order, ties included, stays as it is. */
  lemma {:induction false} SortKeepsOrder(s: seq<Release>)
    requires Descending(s)
    ensures SortDown(s) == s
  {
    hide Older;
    if s != [] {
      SortKeepsOrder(s[1..]);
      assert s == [s[0]] + s[1..];
    }
  }

  /** Where in a list each of some tags comes from, in the order of the list. */
  ghost predicate AreSources(ps: seq<nat>, tags: seq<string>, s: seq<Release>) {
    && |ps| == |tags|
    && (forall i :: 0 <= i < |ps| ==> ps[i] < |s| && s[ps[i]].tag == tags[i])
    && (forall i, j :: 0 <= i < j < |ps| ==> ps[i] < ps[j])
  }

  lemma MovedSources(ps: seq<nat>, tags: seq<string>, x: Release, s: seq<Release>) returns (moved: seq<nat>)
    requires AreSources(ps, tags, s)
    ensures AreSources(moved, tags, [x] + s) && forall i :: 0 <= i < |moved| ==> moved[i] > 0
  {
    moved := seq(|ps|, i requires 0 <= i < |ps| => ps[i] + 1);
    assert forall i :: 0 <= i < |ps| ==> ([x] + s)[moved[i]] == s[ps[i]];
  }

  lemma FirstSource(ps: seq<nat>, tags: seq<string>, s: seq<Release>)
    requires s != [] && AreSources(ps, tags, s) && forall i :: 0 <= i < |ps| ==> ps[i] > 0
    ensures AreSources([0] + ps, [s[0].tag] + tags, s)
  {
  }

  lemma {:induction false} TagSources(s: seq<Release>, keep: set<string>) returns (ps: seq<nat>)
    ensures AreSources(ps, TagsOutside(s, keep), s)
  {
    if s == [] {
      ps := [];
    } else {
      var rest := TagSources(s[1..], keep);
      var out := TagsOutside(s[1..], keep);
      assert s == [s[0]] + s[1..];
      assert TagsOutside(s, keep) == if s[0].tag in keep then out else [s[0].tag] + out;
      hide TagsOutside, AreSources;
      ps := MovedSources(rest, out, s[0], s[1..]);
      if s[0].tag !in keep {
        FirstSource(ps, out, s);
        ps := [0] + ps;
      }
    }
  }

  /** The tags to delete are handed out newest first. */
  lemma DeletedInOrder(releases: seq<Release>, current: Option<string>, i: nat, j: nat, x: Release, y: Release)
    requires UniqueTags(releases) && i < j < |Superseded(releases, current)|
    requires x in Pick(releases, true) && x.tag == Superseded(releases, current)[i]
    requires y in Pick(releases, true) && y.tag == Superseded(releases, current)[j]
    ensures !Older(x, y)
  {
    hide Older, TagsOutside, Keep;
    var sorted := SortDown(Pick(releases, true));
    SortDescends(Pick(releases, true));
    var ps := TagSources(sorted, Keep(releases, current));
    assert sorted[ps[i]] in sorted && sorted[ps[j]] in sorted;
  }

  // ---------- Tags that are not versions

  /** A tag of which no number can be made sorts below every version above 0.0.0. */
  lemma UnreadableSortsLow(tag: string, v: SemVer)
    requires forall part :: part in Split(CorePart(tag), '.') ==> !IsDigits(part)
    requires IsSemVer(v) && (v.major > 0 || v.minor > 0 || v.patch > 0)
    ensures KeyLess(VersionKey(tag), VersionKey(Tag(v)))
  {
    var parts := Split(CorePart(tag), '.');
    assert forall i :: 0 <= i < |parts| ==> parts[i] in parts;
    assert CoreNumbers(CorePart(tag)) == [0, 0, 0];
    KeyOfTag(v);
    NumbersAgree(SemVer(0, 0, 0, []), v);
    hide Split, CorePart, PrePart, Tag, IsSemVer, LexLess, CoreNumbers;
  }

  /** The leading v is optional. */
  lemma VIsOptional(text: string)
    requires text == "" || text[0] != 'v'
    ensures VersionKey("v" + text) == VersionKey(text)
  {
    hide *;
    UntaggedTwice(text);
    SameUntagged("v" + text, text);
  }

  lemma UntaggedTwice(text: string)
    requires text == "" || text[0] != 'v'
    ensures Untagged("v" + text) == Untagged(text)
  {
    assert ("v" + text)[1..] == text;
  }

  lemma SameUntagged(a: string, b: string)
    requires Untagged(a) == Untagged(b)
    ensures VersionKey(a) == VersionKey(b)
  {
    hide Untagged, UpTo, Split, Atoms, CoreNumbers;
  }

  /** Three numbers, in order: a part that is not one, or is missing, is zero, and a fourth is ignored. */
  lemma CoreNumbersAt(core: string, i: nat)
    requires i < 3
    ensures var parts := Split(core, '.');
      CoreNumbers(core)[i] == if i < |parts| && IsDigits(parts[i]) then ToNat(parts[i]) else 0
  {
    hide Split, ToNat, IsDigits;
  }
}
