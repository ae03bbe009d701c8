/**
 * MeshManager: the asset cache. Loaded skeletons and meshes are kept in a
 * string-keyed map; `getAsset` looks a (package, asset) pair up and loads it
 * on a miss, and `registerAsset` files a handle made elsewhere under a key
 * generated from a counter.
 *
 * Handles are modelled as numbered values handed out by the manager itself;
 * what a loader reads from disk is reduced to the kind of asset and its name.
 */
module Meshes {
  import opened Wrappers

  /** A PE::Handle: an opaque reference to an object in the handle space. */
  datatype Handle = Handle(id: nat)

  /** What a loaded handle refers to. */
  datatype Asset =
    | Skeleton(name: string, package: string)
    | Mesh(name: string, package: string, boundingVolumeCulling: bool)

  /** The two loaders getAsset can dispatch to. */
  datatype Loader = SkeletonLoader | MeshLoader

  /** The one error getAsset can run into: no loader for the name (the PEASSERT on an invalid handle). */
  datatype AssetError = NoLoaderFor(name: string)

  /** The capacity m_assets is constructed with. */
  const InitialCapacity: nat := 256

  // ---------------------------------------------------------------------------
  // Keys

  /** The cache key of an asset: `package + "/" + asset`. */
  function AssetKey(package: string, asset: string): (k: string)
    ensures |k| == |package| + 1 + |asset|
    ensures k[..|package|] == package && k[|package|] == '/' && k[|package| + 1..] == asset
    ensures '/' in k
  {
    package + "/" + asset
  }

  /**
   * The key is injective on packages without a '/': then the first '/' of the
   * key ends the package, and two keys agree exactly when both parts do.
   */
  lemma AssetKeyInjective(p1: string, a1: string, p2: string, a2: string)
    requires '/' !in p1 && '/' !in p2
    ensures AssetKey(p1, a1) == AssetKey(p2, a2) <==> p1 == p2 && a1 == a2
  {
    if AssetKey(p1, a1) == AssetKey(p2, a2) {
      var k := AssetKey(p1, a1);
      forall i | 0 <= i < |p1| ensures k[i] != '/' {
        assert k[i] == p1[i] && p1[i] in p1;
      }
      forall i | 0 <= i < |p2| ensures k[i] != '/' {
        assert k[i] == p2[i] && p2[i] in p2;
      }
      assert |p1| == |p2|;
    }
  }

  /** Without that restriction the key is not injective: two different pairs share one key, and so one cache entry. */
  lemma AssetKeyCollision()
    ensures AssetKey("a/b", "c") == AssetKey("a", "b/c")
  {
  }

  /**
   * A key built from a package and a name that contain no '/' has exactly one
   * '/', so it splits back into that package and that name only.
   */
  lemma AssetKeySplit(package: string, asset: string, p: string, a: string)
    requires '/' !in package && '/' !in asset
    ensures AssetKey(p, a) == AssetKey(package, asset) <==> p == package && a == asset
  {
    if AssetKey(p, a) == AssetKey(package, asset) {
      var k := AssetKey(package, asset);
      forall i | 0 <= i < |k| && i != |package|
        ensures k[i] != '/'
      {
        if i < |package| {
          assert k[i] == package[i] && package[i] in package;
        } else {
          assert k[i] == asset[i - |package| - 1] && asset[i - |package| - 1] in asset;
        }
      }
      assert |p| == |package|;
    }
  }

  /** The decimal digit for d. */
  function DigitChar(d: nat): char
    requires d < 10
  {
    ('0' as int + d) as char
  }

  /** The value of a decimal digit. */
  function DigitValue(c: char): int {
    c as int - '0' as int
  }

  /** Every character is a decimal digit. */
  predicate AllDigits(s: string) {
    forall i :: 0 <= i < |s| ==> '0' <= s[i] <= '9'
  }

  /** `%d` of a non-negative number: its decimal digits, most significant first, without leading zeros. */
  function Decimal(n: nat): (s: string)
    ensures |s| >= 1 && AllDigits(s)
    decreases n
  {
    if n < 10 then [DigitChar(n)] else Decimal(n / 10) + [DigitChar(n % 10)]
  }

  /** The number a string of decimal digits denotes. */
  function DecimalValue(s: string): int
    decreases |s|
  {
    if s == [] then 0 else 10 * DecimalValue(s[..|s| - 1]) + DigitValue(s[|s| - 1])
  }

  /** Reading the digits back gives the number: `%d` loses nothing. */
  lemma {:induction false} DecimalRoundTrip(n: nat)
    ensures DecimalValue(Decimal(n)) == n
    decreases n
  {
    var s := Decimal(n);
    if n < 10 {
      assert s[..0] == [];
    } else {
      DecimalRoundTrip(n / 10);
      assert s[..|s| - 1] == Decimal(n / 10);
    }
  }

  /** The key registerAsset files its n-th handle under: `"__generated_%d"`. */
  function GeneratedKey(n: nat): (k: string)
    ensures '/' !in k
  {
    var k := "__generated_" + Decimal(n);
    assert forall i :: 0 <= i < |k| ==> k[i] != '/';
    k
  }

  /** Different counter values give different generated keys. */
  lemma GeneratedKeyInjective(m: nat, n: nat)
    ensures GeneratedKey(m) == GeneratedKey(n) <==> m == n
  {
    if GeneratedKey(m) == GeneratedKey(n) {
      var prefix := "__generated_";
      assert Decimal(m) == GeneratedKey(m)[|prefix|..];
      assert Decimal(n) == GeneratedKey(n)[|prefix|..];
      DecimalRoundTrip(m);
      DecimalRoundTrip(n);
    }
  }

  /** A generated key never equals a key getAsset builds: one has a '/', the other none. */
  lemma GeneratedKeyIsNoAssetKey(n: nat, package: string, asset: string)
    ensures GeneratedKey(n) != AssetKey(package, asset)
  {
  }

  // ---------------------------------------------------------------------------
  // Loader dispatch

  function EndsWith(s: string, suffix: string): bool {
    |suffix| <= |s| && s[|s| - |suffix|..] == suffix
  }

  /**
   * The loader getAsset uses for a name: "skela" is checked first and means a
   * skeleton, then "mesha" means a mesh; any other name has no loader.
   */
  function LoaderFor(name: string): (r: Option<Loader>)
    ensures r == Some(SkeletonLoader) <==> EndsWith(name, "skela")
    ensures r == Some(MeshLoader) <==> EndsWith(name, "mesha")
    ensures r == None <==> !EndsWith(name, "skela") && !EndsWith(name, "mesha")
  {
    if EndsWith(name, "skela") then Some(SkeletonLoader)
    else if EndsWith(name, "mesha") then Some(MeshLoader)
    else None
  }

  /** The two suffixes exclude each other, so the order of the checks never matters. */
  lemma SuffixesExclusive(name: string)
    ensures !(EndsWith(name, "skela") && EndsWith(name, "mesha"))
  {
    if EndsWith(name, "skela") {
      assert name[|name| - 5] == name[|name| - 5..][0] == 's';
    }
  }

  /** What a loader makes of a name: meshes are always loaded with bounding-volume culling on. */
  function Load(loader: Loader, name: string, package: string): (a: Asset)
    ensures a.name == name && a.package == package
    ensures a.Mesh? <==> loader == MeshLoader
    ensures a.Mesh? ==> a.boundingVolumeCulling
  {
    match loader
    case SkeletonLoader => Skeleton(name, package)
    case MeshLoader => Mesh(name, package, true)
  }

  /** An asset as getAsset creates it: what the loader chosen by its name makes of that name. */
  predicate LoadedAs(a: Asset) {
    LoaderFor(a.name).Some? && a == Load(LoaderFor(a.name).value, a.name, a.package)
  }

  /**
   * The cache invariant: every key getAsset filed refers to the asset loaded
   * for that key, two such keys never share a handle, every loaded asset is
   * what its loader makes of its name, every loaded handle was handed out
   * already, and no key the counter will still generate is taken.
   */
  ghost predicate CacheOk(assets: map<string, Handle>, loaded: map<Handle, Asset>, nextHandle: nat, uniqueId: nat) {
    && (forall k :: k in assets && '/' in k ==>
          assets[k] in loaded && AssetKey(loaded[assets[k]].package, loaded[assets[k]].name) == k)
    && (forall k1, k2 :: k1 in assets && k2 in assets && '/' in k1 && '/' in k2 && k1 != k2 ==>
          assets[k1] != assets[k2])
    && (forall h :: h in loaded ==> LoadedAs(loaded[h]))
    && (forall h :: h in loaded ==> h.id < nextHandle)
    && (forall n :: n > uniqueId ==> GeneratedKey(n) !in assets)
  }

  /**
   * Filing a new handle under a new key, for an asset as its loader makes it
   * and whose own key that is, keeps the cache invariant.
   */
  lemma CacheInsert(assets: map<string, Handle>, loaded: map<Handle, Asset>, nextHandle: nat, uniqueId: nat, a: Asset)
    requires CacheOk(assets, loaded, nextHandle, uniqueId)
    requires AssetKey(a.package, a.name) !in assets && LoadedAs(a)
    ensures Handle(nextHandle) !in loaded
    ensures CacheOk(assets[AssetKey(a.package, a.name) := Handle(nextHandle)],
                    loaded[Handle(nextHandle) := a], nextHandle + 1, uniqueId)
  {
    var key, h := AssetKey(a.package, a.name), Handle(nextHandle);
    var assets', loaded' := assets[key := h], loaded[h := a];
    forall k | k in assets' && '/' in k
      ensures assets'[k] in loaded' && AssetKey(loaded'[assets'[k]].package, loaded'[assets'[k]].name) == k
    {
      if k != key {
        assert assets[k] in loaded && assets[k] != h;
      }
    }
    forall k1, k2 | k1 in assets' && k2 in assets' && '/' in k1 && '/' in k2 && k1 != k2
      ensures assets'[k1] != assets'[k2]
    {
      if k1 != key && k2 != key {
      } else if k1 == key {
        assert assets[k2] in loaded;
      } else {
        assert assets[k1] in loaded;
      }
    }
    forall n | n > uniqueId
      ensures GeneratedKey(n) !in assets'
    {
      GeneratedKeyIsNoAssetKey(n, a.package, a.name);
    }
  }

  // ---------------------------------------------------------------------------
  // The manager

  class MeshManager {
    /** m_assets */
    var assets: map<string, Handle>
    /** The capacity m_assets was constructed with. */
    var capacity: nat
    /** The `static int uniqueId` of registerAsset: the number of keys generated so far. */
    var uniqueId: nat
    /** What each handle getAsset created refers to. */
    var loaded: map<Handle, Asset>
    /** The id the next created handle gets. */
    var nextHandle: nat
    /** The handles added to the root scene node, in order. */
    var rootComponents: seq<Handle>

    /** The cache invariant over the current state; see CacheOk. */
    ghost predicate Valid()
      reads this
    {
      CacheOk(assets, loaded, nextHandle, uniqueId)
    }

    /** The constructor: an empty cache (room for InitialCapacity entries) and a fresh counter. */
    constructor ()
      ensures Valid()
      ensures assets == map[] && capacity == InitialCapacity
      ensures loaded == map[] && uniqueId == 0 && nextHandle == 0 && rootComponents == []
    {
      assets := map[];
      capacity := InitialCapacity;
      uniqueId := 0;
      loaded := map[];
      nextHandle := 0;
      rootComponents := [];
    }

    /**
     * getAsset: a cached key returns its handle and changes nothing. On a miss
     * the loader chosen by the name's suffix creates a new handle, which is
     * added to the root and filed under the key. A name with no loader fails
     * the assertion before anything is added.
     */
    method GetAsset(asset: string, package: string) returns (r: Result<Handle, AssetError>)
      requires Valid()
      modifies this
      ensures Valid()
      ensures uniqueId == old(uniqueId) && capacity == old(capacity)
      ensures r.Success? ==>
        && r.value in loaded
        && AssetKey(loaded[r.value].package, loaded[r.value].name) == AssetKey(package, asset)
        && LoadedAs(loaded[r.value])
      ensures AssetKey(package, asset) in old(assets) ==>
        && r == Success(old(assets)[AssetKey(package, asset)])
        && assets == old(assets) && loaded == old(loaded)
        && nextHandle == old(nextHandle) && rootComponents == old(rootComponents)
      ensures AssetKey(package, asset) !in old(assets) && LoaderFor(asset).None? ==>
        && r == Failure(NoLoaderFor(asset))
        && assets == old(assets) && loaded == old(loaded)
        && nextHandle == old(nextHandle) && rootComponents == old(rootComponents)
      ensures AssetKey(package, asset) !in old(assets) && LoaderFor(asset).Some? ==>
        && r == Success(Handle(old(nextHandle)))
        && Handle(old(nextHandle)) !in old(loaded)
        && assets == old(assets)[AssetKey(package, asset) := Handle(old(nextHandle))]
        && loaded == old(loaded)[Handle(old(nextHandle)) := Load(LoaderFor(asset).value, asset, package)]
        && nextHandle == old(nextHandle) + 1
        && rootComponents == old(rootComponents) + [Handle(old(nextHandle))]
    {
      var key := AssetKey(package, asset);
      if key in assets {
        return Success(assets[key]);
      }
      var loader := LoaderFor(asset);
      if loader.None? {
        return Failure(NoLoaderFor(asset));
      }
      var h := Handle(nextHandle);
      CacheInsert(assets, loaded, nextHandle, uniqueId, Load(loader.value, asset, package));
      nextHandle := nextHandle + 1;
      loaded := loaded[h := Load(loader.value, asset, package)];
      rootComponents := rootComponents + [h];
      assets := assets[key := h];
      r := Success(h);
    }

    /**
     * registerAsset: the counter moves on first, so the n-th call files `h`
     * under "__generated_n"; the key is always new (the assertion at line 255
     * cannot fail), and `h` is added to the root.
     */
    method RegisterAsset(h: Handle)
      requires Valid()
      modifies this
      ensures Valid()
      ensures uniqueId == old(uniqueId) + 1
      ensures GeneratedKey(uniqueId) !in old(assets)
      ensures assets == old(assets)[GeneratedKey(uniqueId) := h]
      ensures rootComponents == old(rootComponents) + [h]
      ensures loaded == old(loaded) && nextHandle == old(nextHandle) && capacity == old(capacity)
    {
      uniqueId := uniqueId + 1;
      var key := GeneratedKey(uniqueId);
      var found := key in assets;
      assert !found;
      rootComponents := rootComponents + [h];
      assets := assets[key := h];
      forall n | n > uniqueId
        ensures GeneratedKey(n) !in assets
      {
        GeneratedKeyInjective(n, uniqueId);
      }
    }
  }

  /**
   * Asking twice for the same asset gives the same answer: the second call
   * finds what the first one filed, or fails as the first did, and creates
   * nothing.
   */
  method GetAssetTwice(m: MeshManager, asset: string, package: string)
    returns (first: Result<Handle, AssetError>, second: Result<Handle, AssetError>)
    requires m.Valid()
    modifies m
    ensures m.Valid()
    ensures second == first
    ensures first.Success? ==> AssetKey(package, asset) in m.assets && m.assets[AssetKey(package, asset)] == first.value
    ensures |m.rootComponents| <= |old(m.rootComponents)| + 1
  {
    first := m.GetAsset(asset, package);
    second := m.GetAsset(asset, package);
  }

  /** Two registrations file their handles under two different keys, both kept. */
  method RegisterTwice(m: MeshManager, h1: Handle, h2: Handle)
    requires m.Valid()
    modifies m
    ensures m.Valid()
    ensures GeneratedKey(old(m.uniqueId) + 1) != GeneratedKey(old(m.uniqueId) + 2)
    ensures m.assets == old(m.assets)[GeneratedKey(old(m.uniqueId) + 1) := h1][GeneratedKey(old(m.uniqueId) + 2) := h2]
  {
    m.RegisterAsset(h1);
    m.RegisterAsset(h2);
    GeneratedKeyInjective(old(m.uniqueId) + 1, old(m.uniqueId) + 2);
  }

  /**
   * A handle whose asset carries the key of a package and a name without '/'
   * refers to exactly what the loader for that name makes of it.
   */
  lemma FoundAs(a: Asset, package: string, asset: string)
    requires '/' !in package && '/' !in asset
    requires LoadedAs(a) && AssetKey(a.package, a.name) == AssetKey(package, asset)
    ensures LoaderFor(asset).Some? && a == Load(LoaderFor(asset).value, asset, package)
  {
    AssetKeySplit(package, asset, a.package, a.name);
  }

  /** The example names: "foo.skela" is loaded as a skeleton, "foo.mesha" as a mesh. */
  lemma ExampleNames()
    ensures '/' !in "core" && '/' !in "foo.skela" && '/' !in "foo.mesha"
    ensures LoaderFor("foo.skela") == Some(SkeletonLoader)
    ensures LoaderFor("foo.mesha") == Some(MeshLoader)
  {
    assert "foo.skela"[4..] == "skela";
    assert "foo.mesha"[4..] == "mesha";
    SuffixesExclusive("foo.mesha");
  }

  /**
   * A skeleton and a mesh asked for in one package get two different handles,
   * each referring to the asset its name calls for, whatever was cached before.
   */
  method SkeletonAndMeshApart(m: MeshManager) returns (skeleton: Result<Handle, AssetError>, mesh: Result<Handle, AssetError>)
    requires m.Valid()
    modifies m
    ensures m.Valid()
    ensures skeleton.Success? && mesh.Success? && skeleton.value != mesh.value
    ensures skeleton.value in m.loaded && m.loaded[skeleton.value] == Skeleton("foo.skela", "core")
    ensures mesh.value in m.loaded && m.loaded[mesh.value] == Mesh("foo.mesha", "core", true)
  {
    ExampleNames();
    skeleton := m.GetAsset("foo.skela", "core");
    FoundAs(m.loaded[skeleton.value], "core", "foo.skela");
    ghost var before := m.loaded;
    mesh := m.GetAsset("foo.mesha", "core");
    FoundAs(m.loaded[mesh.value], "core", "foo.mesha");
    assert m.loaded[skeleton.value] == before[skeleton.value];
  }
}
