/** The version order of the release check, and the tag it picks. */
module SemVer {
  import opened Values

  /** A dot-separated pre-release identifier: digits are parsed to a number. */
  datatype Identifier = Numeric(n: nat) | Alphanumeric(text: string)

  datatype Version = Version(major: nat, minor: nat, patch: nat, prerelease: seq<Identifier>)

  datatype Tag = Tag(name: string, version: Version)

  // ---------------------------------------------------------------- the comparison

  /** Python's order on strings. */
  predicate TextLess(a: string, b: string) {
    if a == [] then b != []
    else b != [] && (a[0] < b[0] || (a[0] == b[0] && TextLess(a[1..], b[1..])))
  }

  /** Two identifiers that differ. */
  predicate IdentifierLess(a: Identifier, b: Identifier) {
    match (a, b)
    case (Numeric(m), Numeric(n)) => m < n
    case (Numeric(_), Alphanumeric(_)) => true
    case (Alphanumeric(_), Numeric(_)) => false
    case (Alphanumeric(s), Alphanumeric(t)) => TextLess(s, t)
  }

  /** The loop over the paired identifiers, from position `i` on, and what follows it. */
  predicate PairsLess(a: seq<Identifier>, b: seq<Identifier>, i: nat)
    requires i <= |a| && i <= |b|
    decreases |a| - i
  {
    if i == |a| || i == |b| then |a| < |b|
    else if a[i] == b[i] then PairsLess(a, b, i + 1)
    else IdentifierLess(a[i], b[i])
  }

  predicate CoreLess(a: Version, b: Version) {
    || a.major < b.major
    || (a.major == b.major && (a.minor < b.minor || (a.minor == b.minor && a.patch < b.patch)))
  }

  predicate SameCore(a: Version, b: Version) {
    a.major == b.major && a.minor == b.minor && a.patch == b.patch
  }

  /** `SemVer.__lt__`. */
  predicate Less(a: Version, b: Version) {
    if !SameCore(a, b) then CoreLess(a, b)
    else if a.prerelease == b.prerelease then false
    else if a.prerelease == [] then false
    else if b.prerelease == [] then true
    else PairsLess(a.prerelease, b.prerelease, 0)
  }

  // ---------------------------------------------------------------- section 11

  /** `a` and `b` agree before `k`, and `a` ends there or is lower there. */
  ghost predicate LowerAt(a: seq<Identifier>, b: seq<Identifier>, k: nat) {
    && k <= |a| && k < |b| && a[..k] == b[..k]
    && (k == |a| || IdentifierLower(a[k], b[k]))
  }

  /** Numerically, in ASCII sort order, and numeric below alphanumeric. */
  ghost predicate IdentifierLower(a: Identifier, b: Identifier) {
    || (a.Numeric? && b.Numeric? && a.n < b.n)
    || (a.Numeric? && b.Alphanumeric?)
    || (a.Alphanumeric? && b.Alphanumeric? && exists k: nat :: TextLowerAt(a.text, b.text, k))
  }

  ghost predicate TextLowerAt(a: string, b: string, k: nat) {
    k <= |a| && k < |b| && a[..k] == b[..k] && (k == |a| || a[k] < b[k])
  }

  /** The numbers of a version in the order they are compared. */
  function Core(a: Version): seq<nat> {
    [a.major, a.minor, a.patch]
  }

  /** The first difference of two cores is at `k`, and `a` is lower there. */
  predicate CoreLowerAt(a: Version, b: Version, k: nat) {
    k < 3 && Core(a)[..k] == Core(b)[..k] && Core(a)[k] < Core(b)[k]
  }

  /** Precedence as section 11 of Semantic Versioning 2.0.0 words it. */
  ghost predicate Precedes(a: Version, b: Version) {
    || (exists k: nat :: CoreLowerAt(a, b, k))
    || (Core(a) == Core(b) && a.prerelease != [] && b.prerelease == [])
    || (Core(a) == Core(b) && a.prerelease != [] && b.prerelease != [] && exists k: nat ::
      LowerAt(a.prerelease, b.prerelease, k))
  }

  lemma CoreLessIsLower(a: Version, b: Version)
    ensures SameCore(a, b) <==> Core(a) == Core(b)
    ensures CoreLess(a, b) <==> exists k: nat :: CoreLowerAt(a, b, k)
  {
    var s, t := Core(a), Core(b);
    assert s[..0] == t[..0] && s[..1] == [s[0]] && t[..1] == [t[0]] && s[..2] == [s[0], s[1]] && t[..2] == [t[0], t[1]];
    assert CoreLowerAt(a, b, 0) <==> s[0] < t[0];
    assert CoreLowerAt(a, b, 1) <==> s[0] == t[0] && s[1] < t[1];
    assert CoreLowerAt(a, b, 2) <==> s[0] == t[0] && s[1] == t[1] && s[2] < t[2];
    forall k: nat | CoreLowerAt(a, b, k) ensures k == 0 || k == 1 || k == 2 {}
  }

  lemma {:induction false} TextLessIsLower(a: string, b: string)
    ensures TextLess(a, b) <==> exists k: nat :: TextLowerAt(a, b, k)
    decreases a
  {
    if a == [] {
      if b != [] { assert TextLowerAt(a, b, 0); }
    } else if b != [] {
      if a[0] < b[0] { assert TextLowerAt(a, b, 0); }
      if a[0] == b[0] {
        TextLessIsLower(a[1..], b[1..]);
        forall k: nat | TextLowerAt(a[1..], b[1..], k) ensures TextLowerAt(a, b, k + 1) {
          assert a[..k + 1] == [a[0]] + a[1..][..k] && b[..k + 1] == [b[0]] + b[1..][..k];
        }
        forall k: nat | TextLowerAt(a, b, k) ensures 0 < k && TextLowerAt(a[1..], b[1..], k - 1) {
          assert a[1..][..k - 1] == a[..k][1..] && b[1..][..k - 1] == b[..k][1..];
        }
      } else {
        forall k: nat ensures TextLowerAt(a, b, k) ==> k == 0 {
          if 0 < k <= |a| && k <= |b| { assert a[..k][0] == a[0] && b[..k][0] == b[0]; }
        }
      }
    }
  }

  lemma IdentifierLessIsLower(a: Identifier, b: Identifier)
    ensures IdentifierLess(a, b) <==> IdentifierLower(a, b)
  {
    if a.Alphanumeric? && b.Alphanumeric? { TextLessIsLower(a.text, b.text); }
  }

  lemma {:induction false} TextLessIrreflexive(a: string)
    ensures !TextLess(a, a)
    decreases a
  {
    if a != [] { TextLessIrreflexive(a[1..]); }
  }

  lemma NotBelowItself(a: Identifier)
    ensures !IdentifierLower(a, a)
  {
    IdentifierLessIsLower(a, a);
    if a.Alphanumeric? { TextLessIrreflexive(a.text); }
  }

  lemma {:induction false} PairsLessIsLower(a: seq<Identifier>, b: seq<Identifier>, i: nat)
    requires i <= |a| && i <= |b| && a[..i] == b[..i]
    ensures PairsLess(a, b, i) <==> exists k: nat :: LowerAt(a, b, k)
    decreases |a| - i
  {
    if i == |a| || i == |b| {
      if |a| < |b| { assert LowerAt(a, b, i); }
      forall k: nat | LowerAt(a, b, k) ensures |a| < |b| { AgreeingIsNotLower(a, b, i, k); }
    } else if a[i] == b[i] {
      assert a[..i + 1] == a[..i] + [a[i]] && b[..i + 1] == b[..i] + [b[i]];
      PairsLessIsLower(a, b, i + 1);
    } else {
      IdentifierLessIsLower(a[i], b[i]);
      if IdentifierLess(a[i], b[i]) { assert LowerAt(a, b, i); }
      forall k: nat ensures LowerAt(a, b, k) ==> k == i {
        if k <= i && LowerAt(a, b, k) { AgreeingIsNotLower(a, b, i, k); }
        if i < k <= |a| && k <= |b| { assert a[..k][i] == a[i] && b[..k][i] == b[i]; }
      }
    }
  }

  /** Nothing is lower where both agree. */
  lemma AgreeingIsNotLower(a: seq<Identifier>, b: seq<Identifier>, i: nat, k: nat)
    requires i <= |a| && i <= |b| && a[..i] == b[..i] && LowerAt(a, b, k)
    ensures i <= k
  {
    assert k < i ==> a[..i][k] == b[..i][k];
    if k < |a| { NotBelowItself(a[k]); }
  }

  /** `__lt__` is precedence. */
  lemma LessIsPrecedence(a: Version, b: Version)
    ensures Less(a, b) <==> Precedes(a, b)
  {
    CoreLessIsLower(a, b);
    if SameCore(a, b) && a.prerelease != [] && b.prerelease != [] {
      PairsLessIsLower(a.prerelease, b.prerelease, 0);
      if a.prerelease == b.prerelease { EqualPairsNotLess(a.prerelease, 0); }
    }
  }

  lemma {:induction false} EqualPairsNotLess(a: seq<Identifier>, i: nat)
    requires i <= |a|
    ensures !PairsLess(a, a, i)
    decreases |a| - i
  {
    if i < |a| { EqualPairsNotLess(a, i + 1); }
  }

  // ---------------------------------------------------------------- a strict total order

  lemma {:induction false} TextTotal(a: string, b: string)
    ensures TextLess(a, b) || a == b || TextLess(b, a)
    ensures !(TextLess(a, b) && TextLess(b, a))
    decreases a
  {
    if a != [] && b != [] && a[0] == b[0] {
      TextTotal(a[1..], b[1..]);
      assert a == [a[0]] + a[1..] && b == [b[0]] + b[1..];
    }
  }

  lemma {:induction false} TextTransitive(a: string, b: string, c: string)
    requires TextLess(a, b) && TextLess(b, c)
    ensures TextLess(a, c)
    decreases a
  {
    if a != [] && a[0] == b[0] == c[0] { TextTransitive(a[1..], b[1..], c[1..]); }
  }

  lemma IdentifierTotal(a: Identifier, b: Identifier)
    ensures IdentifierLess(a, b) || a == b || IdentifierLess(b, a)
    ensures !(IdentifierLess(a, b) && IdentifierLess(b, a))
  {
    if a.Alphanumeric? && b.Alphanumeric? { TextTotal(a.text, b.text); }
  }

  lemma IdentifierTransitive(a: Identifier, b: Identifier, c: Identifier)
    requires IdentifierLess(a, b) && IdentifierLess(b, c)
    ensures IdentifierLess(a, c)
  {
    if a.Alphanumeric? && b.Alphanumeric? && c.Alphanumeric? { TextTransitive(a.text, b.text, c.text); }
  }

  lemma {:induction false} PairsTotal(a: seq<Identifier>, b: seq<Identifier>, i: nat)
    requires i <= |a| && i <= |b| && a[..i] == b[..i]
    ensures PairsLess(a, b, i) || a == b || PairsLess(b, a, i)
    ensures !(PairsLess(a, b, i) && PairsLess(b, a, i))
    decreases |a| - i
  {
    if i == |a| || i == |b| {
      assert a[..|a|] == a && b[..|b|] == b;
    } else if a[i] == b[i] {
      assert a[..i + 1] == a[..i] + [a[i]] && b[..i + 1] == b[..i] + [b[i]];
      PairsTotal(a, b, i + 1);
    } else {
      IdentifierTotal(a[i], b[i]);
    }
  }

  lemma {:induction false} PairsTransitive(a: seq<Identifier>, b: seq<Identifier>, c: seq<Identifier>, i: nat)
    requires i <= |a| && i <= |b| && i <= |c| && PairsLess(a, b, i) && PairsLess(b, c, i)
    ensures PairsLess(a, c, i)
    decreases |a| - i
  {
    if i < |a| && i < |b| && i < |c| {
      if a[i] == b[i] == c[i] {
        PairsTransitive(a, b, c, i + 1);
      } else if a[i] != b[i] && b[i] != c[i] {
        IdentifierTransitive(a[i], b[i], c[i]);
        IdentifierTotal(a[i], b[i]);
      }
    }
  }

  /** Of two versions exactly one is smaller, or they are equal. */
  lemma Trichotomy(a: Version, b: Version)
    ensures Less(a, b) || a == b || Less(b, a)
    ensures !(Less(a, b) && Less(b, a)) && (a == b ==> !Less(a, b))
  {
    PairsTotal(a.prerelease, b.prerelease, 0);
  }

  lemma Transitive(a: Version, b: Version, c: Version)
    requires Less(a, b) && Less(b, c)
    ensures Less(a, c)
  {
    if SameCore(a, b) && SameCore(b, c) && b.prerelease != [] && c.prerelease != [] {
      PairsTransitive(a.prerelease, b.prerelease, c.prerelease, 0);
      PairsTotal(a.prerelease, b.prerelease, 0);
    }
  }

  // ---------------------------------------------------------------- the latest tag

  predicate Stable(v: Version) {
    v.prerelease == []
  }

  /** `>` between two keys: the stable flag, then the version. */
  predicate KeyGreater(a: Version, b: Version) {
    if Stable(a) != Stable(b) then Stable(a) else Less(b, a)
  }

  lemma KeyTransitive(a: Version, b: Version, c: Version)
    requires KeyGreater(a, b) && !KeyGreater(c, b)
    ensures KeyGreater(a, c)
  {
    Trichotomy(b, c);
    if Stable(a) == Stable(b) == Stable(c) && b != c { Transitive(c, b, a); }
  }

  /**
   * `determine_latest_tag`: the greatest stable version if there is a stable one, else the greatest
   * of all; the first such tag. `max` of nothing raises.
   */
  method DetermineLatestTag(tags: seq<Tag>) returns (r: Result<nat>)
    ensures r.Err? <==> tags == []
    ensures r.Ok? ==> r.value < |tags|
    ensures r.Ok? ==> forall t | t in tags && t.version.prerelease == [] ::
              tags[r.value].version.prerelease == [] && !Less(tags[r.value].version, t.version)
    ensures r.Ok? && tags[r.value].version.prerelease != [] ==>
              forall t | t in tags :: !Less(tags[r.value].version, t.version)
    ensures r.Ok? ==> forall k | 0 <= k < r.value :: tags[k].version != tags[r.value].version
  {
    if tags == [] {
      return Err;
    }
    var best := 0;
    for i := 1 to |tags|
      invariant best < i
      invariant forall k | 0 <= k < i :: !KeyGreater(tags[k].version, tags[best].version)
      invariant forall k | 0 <= k < best :: tags[k].version != tags[best].version
    {
      var v, b := tags[i].version, tags[best].version;
      Trichotomy(v, v);
      if KeyGreater(v, b) {
        forall k | 0 <= k < i ensures KeyGreater(v, tags[k].version) && !KeyGreater(tags[k].version, v) {
          KeyTransitive(v, b, tags[k].version);
          Trichotomy(v, tags[k].version);
        }
        best := i;
      }
    }
    return Ok(best);
  }
}
