/**
 The drift check of a recorded bill of materials against the live one.
 */
module Sbom {
  import opened Prelude
  import opened CanonicalJson

  datatype Drift =
    | ContentDigest
    | CrateLeft(key: Text)
    | CrateEntered(key: Text)
    | ToolchainChannel
    | LockfileMissing(path: Text)
    | ResolutionAdded(path: Text, key: Text)
    | BunRuntime
    | AssetPin(target: Text)

  // ----- reading the content

  function At(j: Json, key: Text): Json {
    if j.JObject? && key in j.members then j.members[key] else JNull
  }

  function ItemsOf(j: Json): seq<Json> {
    if j.JList? then j.items else []
  }

  function StringOf(j: Json): Text {
    if j.JString? then j.text else []
  }

  /** `name@version`. */
  function PackageKey(p: Json): Text {
    StringOf(At(p, Units("name"))) + Units("@") + StringOf(At(p, Units("version")))
  }

  function KeysFor(packages: seq<Json>): set<Text> {
    set p | p in packages :: PackageKey(p)
  }

  function RustPackages(c: Json): seq<Json> {
    ItemsOf(At(At(c, Units("rust")), Units("packages")))
  }

  function Channel(c: Json): Json {
    At(At(c, Units("rust")), Units("toolchainChannel"))
  }

  function Lockfiles(c: Json): seq<Json> {
    ItemsOf(At(At(c, Units("npm")), Units("lockfiles")))
  }

  function PathOf(lockfile: Json): Text {
    StringOf(At(lockfile, Units("path")))
  }

  function PackagesOf(lockfile: Json): seq<Json> {
    ItemsOf(At(lockfile, Units("packages")))
  }

  function BunVersion(c: Json): Json {
    At(At(c, Units("tools")), Units("bunRuntimeVersion"))
  }

  function Pins(c: Json): seq<Json> {
    ItemsOf(At(At(c, Units("tools")), Units("bunAssetPins")))
  }

  function TargetOf(pin: Json): Text {
    StringOf(At(pin, Units("rustTarget")))
  }

  function DigestOf(pin: Json): Json {
    At(pin, Units("sha256"))
  }

  /** `lockfiles.find` by path. */
  function FirstWithPath(lockfiles: seq<Json>, path: Text): (r: Option<Json>)
    ensures r.Some? ==> r.value in lockfiles && PathOf(r.value) == path
    ensures r.None? ==> forall l :: l in lockfiles ==> PathOf(l) != path
  {
    if lockfiles == [] then None
    else if PathOf(lockfiles[0]) == path then Some(lockfiles[0])
    else FirstWithPath(lockfiles[1..], path)
  }

  /** Of the lockfiles at one path, the first is found. */
  lemma {:induction false} FirstIsFirst(lockfiles: seq<Json>, k: nat)
    requires k < |lockfiles| && forall j :: 0 <= j < k ==> PathOf(lockfiles[j]) != PathOf(lockfiles[k])
    ensures FirstWithPath(lockfiles, PathOf(lockfiles[k])) == Some(lockfiles[k])
  {
    hide PathOf;
    if k > 0 {
      assert PathOf(lockfiles[0]) != PathOf(lockfiles[k]);
      FirstIsFirst(lockfiles[1..], k - 1);
    }
  }

  /** What a map from target to digest holds: of two pins for one target, the last. */
  function LastPin(pins: seq<Json>, target: Text): (r: Option<Json>)
    ensures r.Some? ==> exists p :: p in pins && TargetOf(p) == target && DigestOf(p) == r.value
    ensures r.None? ==> forall p :: p in pins ==> TargetOf(p) != target
  {
    if pins == [] then None
    else
      var p := pins[|pins| - 1];
      if TargetOf(p) == target then Some(DigestOf(p))
      else
        assert pins == pins[..|pins| - 1] + [p];
        LastPin(pins[..|pins| - 1], target)
  }

  /** Of the pins for one target, the last counts. */
  lemma {:induction false} LastIsLast(pins: seq<Json>, k: nat)
    requires k < |pins| && forall j :: k < j < |pins| ==> TargetOf(pins[j]) != TargetOf(pins[k])
    ensures LastPin(pins, TargetOf(pins[k])) == Some(DigestOf(pins[k]))
    decreases |pins|
  {
    hide TargetOf, DigestOf;
    if k < |pins| - 1 {
      LastIsLast(pins[..|pins| - 1], k);
    }
  }

  // ----- what drifts

  ghost predicate Drifts(d: Drift, hash: Text -> Text, baseline: Value, live: Value) {
    var b, l := Meaning(baseline), Meaning(live);
    match d
    case ContentDigest => hash(TextOf(baseline)) != hash(TextOf(live))
    case CrateLeft(k) => k in KeysFor(RustPackages(b)) && k !in KeysFor(RustPackages(l))
    case CrateEntered(k) => k in KeysFor(RustPackages(l)) && k !in KeysFor(RustPackages(b))
    case ToolchainChannel => Channel(b) != Channel(l)
    case LockfileMissing(path) =>
      FirstWithPath(Lockfiles(b), path).None? && exists f :: f in Lockfiles(l) && PathOf(f) == path
    case ResolutionAdded(path, key) =>
      var known := FirstWithPath(Lockfiles(b), path);
      && known.Some? && key !in KeysFor(PackagesOf(known.value))
      && exists f :: f in Lockfiles(l) && PathOf(f) == path && key in KeysFor(PackagesOf(f))
    case BunRuntime => BunVersion(b) != BunVersion(l)
    case AssetPin(target) =>
      exists p :: p in Pins(l) && TargetOf(p) == target && LastPin(Pins(b), target) != Some(DigestOf(p))
  }

  /**
   Content that does not contradict itself: packages of two lockfiles at one path are those
   of the first, and two pins for one target agree.
   */
  ghost predicate Consistent(c: Json) {
    && (forall f :: f in Lockfiles(c) ==>
          KeysFor(PackagesOf(f)) <= KeysFor(PackagesOf(FirstWithPath(Lockfiles(c), PathOf(f)).value)))
    && (forall p :: p in Pins(c) ==> LastPin(Pins(c), TargetOf(p)) == Some(DigestOf(p)))
  }

  ghost predicate Distinct(c: Json) {
    && (forall f, g :: f in Lockfiles(c) && g in Lockfiles(c) && PathOf(f) == PathOf(g) ==> f == g)
    && (forall p, q :: p in Pins(c) && q in Pins(c) && TargetOf(p) == TargetOf(q) ==> p == q)
  }

  lemma DistinctIsConsistent(c: Json)
    requires Distinct(c)
    ensures Consistent(c)
  {
  }

  /**
   With a hash that does not collide, nothing drifts exactly when both contents say the same
   and the live one does not contradict itself.
   */
  lemma NoDriftIffSame(hash: Text -> Text, baseline: Value, live: Value)
    requires WellFormed(baseline) && WellFormed(live)
    requires forall s, t :: hash(s) == hash(t) ==> s == t
    ensures (forall d :: !Drifts(d, hash, baseline, live)) <==>
              Meaning(baseline) == Meaning(live) && Consistent(Meaning(live))
  {
    hide RustPackages, Channel, Lockfiles, BunVersion, Pins, TextOf, Meaning, PackagesOf, PathOf, TargetOf, DigestOf,
         LastPin, FirstWithPath;
    SameTextIffSameMeaning(baseline, live);
    var b, l := Meaning(baseline), Meaning(live);
    if forall d :: !Drifts(d, hash, baseline, live) {
      assert !Drifts(ContentDigest, hash, baseline, live);
      forall f | f in Lockfiles(l)
        ensures KeysFor(PackagesOf(f)) <= KeysFor(PackagesOf(FirstWithPath(Lockfiles(l), PathOf(f)).value))
      {
        forall k | k in KeysFor(PackagesOf(f))
          ensures k in KeysFor(PackagesOf(FirstWithPath(Lockfiles(l), PathOf(f)).value))
        {
          assert !Drifts(ResolutionAdded(PathOf(f), k), hash, baseline, live);
        }
      }
      forall p | p in Pins(l) ensures LastPin(Pins(l), TargetOf(p)) == Some(DigestOf(p)) {
        assert !Drifts(AssetPin(TargetOf(p)), hash, baseline, live);
      }
    }
    if b == l && Consistent(l) {
      forall d ensures !Drifts(d, hash, baseline, live) {
        SameNeverDrifts(d, hash, baseline, live);
      }
    }
  }

  lemma SameNeverDrifts(d: Drift, hash: Text -> Text, baseline: Value, live: Value)
    requires TextOf(baseline) == TextOf(live) && Meaning(baseline) == Meaning(live) && Consistent(Meaning(live))
    ensures !Drifts(d, hash, baseline, live)
  {
  }

  function OneMember(key: Text, v: Value): Value {
    Object([Member(key, v)])
  }

  function Pin(digest: Text): Value {
    Object([Member(Units("rustTarget"), String([])), Member(Units("sha256"), String(digest))])
  }

  /** Two pins for one target. */
  const TWO_PINS := OneMember(Units("tools"), OneMember(Units("bunAssetPins"), List([Pin([1]), Pin([2])])))

  lemma OneMemberMeans(key: Text, v: Value)
    requires !v.Undefined?
    ensures At(Meaning(OneMember(key, v)), key) == Meaning(v)
  {
  }

  lemma MembersMean(m: Member, rest: seq<Member>)
    requires m.value.String?
    ensures MeaningMembers([m] + rest) == MeaningMembers(rest)[m.key := JString(m.value.text)]
  {
  }

  lemma PinMeans(digest: Text)
    ensures TargetOf(Meaning(Pin(digest))) == [] && DigestOf(Meaning(Pin(digest))) == JString(digest)
  {
    var target, sha := Member(Units("rustTarget"), String([])), Member(Units("sha256"), String(digest));
    MembersMean(sha, []);
    MembersMean(target, [sha]);
    assert [target] + [sha] == [target, sha] && [sha] + [] == [sha];
    assert |Units("sha256")| != |Units("rustTarget")|;
  }

  /** Content that repeats a target with another digest drifts from itself. */
  lemma RepeatedPinDrifts(hash: Text -> Text)
    ensures Drifts(AssetPin([]), hash, TWO_PINS, TWO_PINS)
  {
    hide TargetOf, DigestOf, Pin, TextOf;
    var pins := List([Pin([1]), Pin([2])]);
    OneMemberMeans(Units("tools"), OneMember(Units("bunAssetPins"), pins));
    OneMemberMeans(Units("bunAssetPins"), pins);
    PinMeans([1]);
    PinMeans([2]);
    var first, second := Meaning(Pin([1])), Meaning(Pin([2]));
    assert [Pin([1]), Pin([2])][1..] == [Pin([2])] && [Pin([2])][1..] == [];
    assert MeaningAll([Pin([2])]) == [second];
    assert Pins(Meaning(TWO_PINS)) == [first, second];
    assert first in [first, second] && LastPin([first, second], []) == Some(JString([2]));
  }

  // ----- where the parts of a content are

  lemma MeaningOfPair(a: Member, b: Member)
    requires a.key != b.key && !a.value.Undefined? && !b.value.Undefined?
    ensures At(Meaning(Object([a, b])), a.key) == Meaning(a.value)
    ensures At(Meaning(Object([a, b])), b.key) == Meaning(b.value)
  {
    MemberMeans(b, []);
    MemberMeans(a, [b]);
    assert [a] + [b] == [a, b] && [b] + [] == [b];
  }

  lemma MemberMeans(m: Member, rest: seq<Member>)
    requires !m.value.Undefined?
    ensures MeaningMembers([m] + rest) == MeaningMembers(rest)[m.key := Meaning(m.value)]
  {
    assert ([m] + rest)[1..] == rest;
  }

  /** A package, a lockfile and a pin are read by the fields they are written with. */
  lemma RecordsAreRead(a: Text, b: Text, items: seq<Value>)
    ensures PackageKey(Meaning(Object([Member(Units("name"), String(a)), Member(Units("version"), String(b))]))) ==
            a + [0x40] + b
    ensures var l := Meaning(Object([Member(Units("path"), String(a)), Member(Units("packages"), List(items))]));
            PathOf(l) == a && PackagesOf(l) == MeaningAll(items)
    ensures var p := Meaning(Object([Member(Units("rustTarget"), String(a)), Member(Units("sha256"), String(b))]));
            TargetOf(p) == a && DigestOf(p) == JString(b)
  {
    hide MeaningMembers;
    FieldNames();
    MeaningOfPair(Member(Units("name"), String(a)), Member(Units("version"), String(b)));
    MeaningOfPair(Member(Units("path"), String(a)), Member(Units("packages"), List(items)));
    MeaningOfPair(Member(Units("rustTarget"), String(a)), Member(Units("sha256"), String(b)));
    assert Units("@") == [0x40];
  }

  lemma FieldNames()
    ensures |Units("name")| != |Units("version")| && |Units("path")| != |Units("packages")|
    ensures |Units("rustTarget")| != |Units("sha256")| && |Units("packages")| != |Units("toolchainChannel")|
    ensures |Units("bunRuntimeVersion")| != |Units("bunAssetPins")|
    ensures |Units("rust")| == 4 && |Units("npm")| == 3 && |Units("tools")| == 5
  {
  }

  function RustPart(packages: seq<Value>, channel: Value): Value {
    Object([Member(Units("packages"), List(packages)), Member(Units("toolchainChannel"), channel)])
  }

  function ToolsPart(bun: Value, pins: seq<Value>): Value {
    Object([Member(Units("bunRuntimeVersion"), bun), Member(Units("bunAssetPins"), List(pins))])
  }

  /** A content with these crates, channel, lockfiles, runtime and pins. */
  function ContentOf(
      packages: seq<Value>, channel: Value, lockfiles: seq<Value>, bun: Value, pins: seq<Value>): Value
  {
    Object([Member(Units("rust"), RustPart(packages, channel)),
            Member(Units("npm"), OneMember(Units("lockfiles"), List(lockfiles))),
            Member(Units("tools"), ToolsPart(bun, pins))])
  }

  /** The comparison reads every part of a content from where it stands. */
  lemma PartsAreRead(packages: seq<Value>, channel: Value, lockfiles: seq<Value>, bun: Value, pins: seq<Value>)
    requires !channel.Undefined? && !bun.Undefined?
    ensures var c := Meaning(ContentOf(packages, channel, lockfiles, bun, pins));
            && RustPackages(c) == MeaningAll(packages) && Channel(c) == Meaning(channel)
            && Lockfiles(c) == MeaningAll(lockfiles)
            && BunVersion(c) == Meaning(bun) && Pins(c) == MeaningAll(pins)
  {
    hide MeaningMembers, RustPart, ToolsPart, OneMember;
    FieldNames();
    var r, n, t := Member(Units("rust"), RustPart(packages, channel)),
                   Member(Units("npm"), OneMember(Units("lockfiles"), List(lockfiles))),
                   Member(Units("tools"), ToolsPart(bun, pins));
    PartIsObject(packages, channel, bun, pins, lockfiles);
    MemberMeans(t, []);
    MemberMeans(n, [t]);
    MemberMeans(r, [n, t]);
    assert [t] + [] == [t] && [n] + [t] == [n, t] && [r] + [n, t] == [r, n, t];
    RustIsRead(packages, channel);
    ToolsAreRead(bun, pins);
    OneMemberMeans(Units("lockfiles"), List(lockfiles));
  }

  lemma PartIsObject(packages: seq<Value>, channel: Value, bun: Value, pins: seq<Value>, lockfiles: seq<Value>)
    ensures RustPart(packages, channel).Object? && ToolsPart(bun, pins).Object?
    ensures OneMember(Units("lockfiles"), List(lockfiles)).Object?
  {
  }

  lemma RustIsRead(packages: seq<Value>, channel: Value)
    requires !channel.Undefined?
    ensures At(Meaning(RustPart(packages, channel)), Units("packages")) == JList(MeaningAll(packages))
    ensures At(Meaning(RustPart(packages, channel)), Units("toolchainChannel")) == Meaning(channel)
  {
    hide MeaningMembers;
    FieldNames();
    MeaningOfPair(Member(Units("packages"), List(packages)), Member(Units("toolchainChannel"), channel));
  }

  lemma ToolsAreRead(bun: Value, pins: seq<Value>)
    requires !bun.Undefined?
    ensures At(Meaning(ToolsPart(bun, pins)), Units("bunRuntimeVersion")) == Meaning(bun)
    ensures At(Meaning(ToolsPart(bun, pins)), Units("bunAssetPins")) == JList(MeaningAll(pins))
  {
    hide MeaningMembers;
    FieldNames();
    MeaningOfPair(Member(Units("bunRuntimeVersion"), bun), Member(Units("bunAssetPins"), List(pins)));
  }

  // ----- the check

  function DriftIf(condition: bool, d: Drift): seq<Drift> {
    if condition then [d] else []
  }

  method VerifySnapshot(hash: Text -> Text, baseline: Value, live: Value) returns (drift: seq<Drift>)
    ensures forall d :: d in drift <==> Drifts(d, hash, baseline, live)
  {
    hide RustPackages, Channel, Lockfiles, BunVersion, Pins, TextOf, Meaning, KeysFor, PackagesOf, PathOf, TargetOf,
         DigestOf, LastPin, FirstWithPath;
    var b, l := Meaning(baseline), Meaning(live);
    drift := DriftIf(hash(TextOf(baseline)) != hash(TextOf(live)), ContentDigest);
    var crates := CompareCrates(RustPackages(b), RustPackages(l));
    var locks := CompareLockfiles(Lockfiles(b), Lockfiles(l));
    var pins := ComparePins(Pins(b), Pins(l));
    drift := drift + crates + DriftIf(Channel(b) != Channel(l), ToolchainChannel) + locks
             + DriftIf(BunVersion(b) != BunVersion(l), BunRuntime) + pins;
  }

  method CompareCrates(base: seq<Json>, live: seq<Json>) returns (drift: seq<Drift>)
    ensures forall d :: d in drift <==>
              || (d.CrateLeft? && d.key in KeysFor(base) && d.key !in KeysFor(live))
              || (d.CrateEntered? && d.key in KeysFor(live) && d.key !in KeysFor(base))
  {
    drift := [];
    for i := 0 to |base|
      invariant forall d :: d in drift <==> d.CrateLeft? && d.key in KeysFor(base[..i]) && d.key !in KeysFor(live)
    {
      assert base[..i + 1] == base[..i] + [base[i]];
      drift := drift + DriftIf(PackageKey(base[i]) !in KeysFor(live), CrateLeft(PackageKey(base[i])));
    }
    assert base[..|base|] == base;
    for i := 0 to |live|
      invariant forall d :: d in drift <==>
                  || (d.CrateLeft? && d.key in KeysFor(base) && d.key !in KeysFor(live))
                  || (d.CrateEntered? && d.key in KeysFor(live[..i]) && d.key !in KeysFor(base))
    {
      assert live[..i + 1] == live[..i] + [live[i]];
      drift := drift + DriftIf(PackageKey(live[i]) !in KeysFor(base), CrateEntered(PackageKey(live[i])));
    }
    assert live[..|live|] == live;
  }

  ghost predicate LockDrift(d: Drift, base: seq<Json>, f: Json) {
    var known := FirstWithPath(base, PathOf(f));
    if known.None? then d == LockfileMissing(PathOf(f))
    else
      && d.ResolutionAdded? && d.path == PathOf(f)
      && d.key in KeysFor(PackagesOf(f)) && d.key !in KeysFor(PackagesOf(known.value))
  }

  method CompareLockfiles(base: seq<Json>, live: seq<Json>) returns (drift: seq<Drift>)
    ensures forall d :: d in drift <==> exists f :: f in live && LockDrift(d, base, f)
  {
    drift := [];
    for i := 0 to |live|
      invariant forall d :: d in drift <==> exists f :: f in live[..i] && LockDrift(d, base, f)
    {
      assert live[..i + 1] == live[..i] + [live[i]];
      var more := CompareLockfile(base, live[i]);
      drift := drift + more;
    }
    assert live[..|live|] == live;
  }

  method CompareLockfile(base: seq<Json>, f: Json) returns (drift: seq<Drift>)
    ensures forall d :: d in drift <==> LockDrift(d, base, f)
  {
    var known := FirstWithPath(base, PathOf(f));
    if known.None? {
      return [LockfileMissing(PathOf(f))];
    }
    var packages, baseline := PackagesOf(f), KeysFor(PackagesOf(known.value));
    drift := [];
    for i := 0 to |packages|
      invariant forall d :: d in drift <==>
                  d.ResolutionAdded? && d.path == PathOf(f) && d.key in KeysFor(packages[..i]) && d.key !in baseline
    {
      assert packages[..i + 1] == packages[..i] + [packages[i]];
      var key := PackageKey(packages[i]);
      drift := drift + DriftIf(key !in baseline, ResolutionAdded(PathOf(f), key));
    }
    assert packages[..|packages|] == packages;
  }

  method ComparePins(base: seq<Json>, live: seq<Json>) returns (drift: seq<Drift>)
    ensures forall d :: d in drift <==>
              && d.AssetPin?
              && exists p :: p in live && TargetOf(p) == d.target && LastPin(base, d.target) != Some(DigestOf(p))
  {
    drift := [];
    for i := 0 to |live|
      invariant forall d :: d in drift <==>
                  d.AssetPin? && exists p :: p in live[..i] && TargetOf(p) == d.target &&
                                             LastPin(base, d.target) != Some(DigestOf(p))
    {
      assert live[..i + 1] == live[..i] + [live[i]];
      var target := TargetOf(live[i]);
      drift := drift + DriftIf(LastPin(base, target) != Some(DigestOf(live[i])), AssetPin(target));
    }
    assert live[..|live|] == live;
  }
}
