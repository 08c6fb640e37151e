/**
 * The resource manager: an ordered list of resource loaders, a cache of
 * loaded assets held by weak reference, and per-asset change views.
 *
 * A loader is a value: what `find_file` reports and what `read_file`
 * returns for each path. Whether a weak reference has expired is a field
 * that the code holding the strong references sets; here it is the
 * `expired` flag of an asset or a view.
 */
module Resources {
  import opened Wrappers

  /** What `find_file` reports: whether the file exists and its modification time. */
  datatype FileInfo = FileInfo(present: bool, mtimeSec: int, mtimeNsec: int)

  datatype Loader = Loader(info: map<string, FileInfo>, files: map<string, string>)

  function FindFile(l: Loader, path: string): FileInfo
  {
    if path in l.info then l.info[path] else FileInfo(false, 0, 0)
  }

  function ReadFile(l: Loader, path: string): string
  {
    if path in l.files then l.files[path] else ""
  }

  /** The seconds of the newest modification time seen so far; `newest_spec` starts at {0, 0}. */
  function NewestSec(loaders: seq<Loader>, path: string, newest: Option<nat>): int
  {
    if newest.Some? && newest.value < |loaders| then FindFile(loaders[newest.value], path).mtimeSec else 0
  }

  /**
   * The loop of `load_newest_asset_contents` over the first n loaders: a
   * loader replaces the current choice when the file exists there and its
   * seconds are strictly greater than the newest seen.
   */
  function Newest(loaders: seq<Loader>, path: string, n: nat): (r: Option<nat>)
    requires n <= |loaders|
    ensures r.Some? ==> r.value < n
  {
    if n == 0 then None
    else
      var prev := Newest(loaders, path, n - 1);
      var info := FindFile(loaders[n - 1], path);
      if info.present && NewestSec(loaders, path, prev) < info.mtimeSec then Some(n - 1) else prev
  }

  /**
   * What the choice means: no loader is chosen exactly when no loader has
   * the file with seconds above 0; a chosen loader has the file, with the
   * greatest seconds of all, and no earlier loader has those seconds.
   * Nanoseconds play no part.
   */
  lemma {:induction false} NewestIsEarliestGreatest(loaders: seq<Loader>, path: string, n: nat)
    requires n <= |loaders|
    ensures var r := Newest(loaders, path, n);
      (r.None? <==> forall j | 0 <= j < n :: !(FindFile(loaders[j], path).present && FindFile(loaders[j], path).mtimeSec > 0))
    ensures var r := Newest(loaders, path, n);
      r.Some? ==>
        var i := r.value;
        FindFile(loaders[i], path).present && FindFile(loaders[i], path).mtimeSec > 0 &&
        (forall j | 0 <= j < n && FindFile(loaders[j], path).present ::
          FindFile(loaders[j], path).mtimeSec <= FindFile(loaders[i], path).mtimeSec) &&
        (forall j | 0 <= j < i && FindFile(loaders[j], path).present ::
          FindFile(loaders[j], path).mtimeSec < FindFile(loaders[i], path).mtimeSec)
  {
    if n > 0 {
      NewestIsEarliestGreatest(loaders, path, n - 1);
    }
  }

  /**
   * `load_newest_asset_contents`: the contents read from the chosen loader,
   * or None (the output left untouched) when no loader qualifies.
   */
  method LoadNewestAssetContents(loaders: seq<Loader>, path: string) returns (contents: Option<string>)
    ensures contents.None? <==> Newest(loaders, path, |loaders|).None?
    ensures contents.Some? ==> contents.value == ReadFile(loaders[Newest(loaders, path, |loaders|).value], path)
  {
    var newest: Option<nat> := None;
    var newestSec := 0;
    var i := 0;
    while i < |loaders|
      invariant 0 <= i <= |loaders|
      invariant newest == Newest(loaders, path, i)
      invariant newestSec == NewestSec(loaders, path, newest)
    {
      var info := FindFile(loaders[i], path);
      if info.present && newestSec < info.mtimeSec {
        newest := Some(i);
        newestSec := info.mtimeSec;
      }
      i := i + 1;
    }
    if newest.Some? {
      return Some(ReadFile(loaders[newest.value], path));
    }
    return None;
  }

  class AssetView {
    const asset: Asset
    /** The weak reference the asset holds to this view has expired. */
    var expired: bool

    constructor (asset: Asset)
      ensures this.asset == asset && !expired
    {
      this.asset := asset;
      expired := false;
    }
  }

  /** The views whose weak reference is still live, in registration order. */
  function LiveViews(views: seq<AssetView>): (r: seq<AssetView>)
    reads set v | v in views
    ensures forall i | 0 <= i < |r| :: r[i] in views && !r[i].expired
    ensures forall i | 0 <= i < |views| && !views[i].expired :: views[i] in r
    ensures |r| <= |views|
  {
    if |views| == 0 then []
    else
      var last := views[|views| - 1];
      LiveViews(views[..|views| - 1]) + (if last.expired then [] else [last])
  }

  class Asset {
    var contents: string
    var views: seq<AssetView>
    /** Every strong reference to this asset has gone, so the cache's weak reference has expired. */
    var expired: bool

    constructor (contents: string)
      ensures this.contents == contents && views == [] && !expired
    {
      this.contents := contents;
      views := [];
      expired := false;
    }

    /**
     * `set_file_contents`: the contents are replaced, then every live view
     * is notified, in registration order; the returned sequence lists the
     * views notified.
     */
    method SetFileContents(newContents: string) returns (notified: seq<AssetView>)
      modifies this`contents
      ensures contents == newContents
      ensures notified == LiveViews(views)
    {
      contents := newContents;
      var vs := views;
      notified := [];
      var i := 0;
      while i < |vs|
        invariant 0 <= i <= |vs|
        invariant contents == newContents
        invariant notified == LiveViews(vs[..i])
      {
        assert vs[..i + 1][..i] == vs[..i];
        if !vs[i].expired {
          notified := notified + [vs[i]];
        }
        i := i + 1;
      }
      assert vs[..i] == vs;
    }
  }

  /** `create_view`: a new view of the asset, appended to its view list. */
  method CreateView(asset: Asset) returns (view: AssetView)
    modifies asset`views
    ensures fresh(view) && view.asset == asset && !view.expired
    ensures asset.views == old(asset.views) + [view]
  {
    view := new AssetView(asset);
    asset.views := asset.views + [view];
  }

  class ResourceManager {
    var loaders: seq<Loader>
    var loaded: map<string, Asset>

    constructor ()
      ensures loaders == [] && loaded == map[]
    {
      loaders := [];
      loaded := map[];
    }

    /** `add_resource_loader`: the loader goes to the end of the list. */
    method AddResourceLoader(l: Loader)
      modifies this`loaders
      ensures loaders == old(loaders) + [l]
    {
      loaders := loaders + [l];
    }

    /** The cache holds a live asset for the path. */
    predicate Cached(path: string)
      reads this, loaded.Values
    {
      path in loaded && !loaded[path].expired
    }

    /**
     * `get_resource`: a live cached asset is returned as is, without
     * consulting the loaders. Otherwise the newest contents are loaded into
     * a new asset, which is cached and returned; when no loader has the
     * file, the result is null and the cache is unchanged.
     */
    method GetResource(path: string) returns (asset: Asset?)
      modifies this`loaded
      ensures asset != null ==> fresh(asset) || asset in old(loaded).Values
      ensures old(Cached(path)) ==> asset == old(loaded[path]) && loaded == old(loaded)
      ensures !old(Cached(path)) && Newest(loaders, path, |loaders|).None? ==>
        asset == null && loaded == old(loaded)
      ensures !old(Cached(path)) && Newest(loaders, path, |loaders|).Some? ==>
        asset != null && fresh(asset) && asset.views == [] && !asset.expired &&
        asset.contents == ReadFile(loaders[Newest(loaders, path, |loaders|).value], path) &&
        loaded == old(loaded)[path := asset]
    {
      if path !in loaded || loaded[path].expired {
        var contents := LoadNewestAssetContents(loaders, path);
        if contents.Some? {
          asset := new Asset(contents.value);
          loaded := loaded[path := asset];
          return;
        }
        return null;
      }
      asset := loaded[path];
    }

    /**
     * `notify_file_changed`: nothing for a path never loaded. Otherwise the
     * asset is fetched (reloaded if it had expired) and, when a loader has
     * the file, given the newest contents, notifying its live views. The
     * fetch and the reload consult the same loaders, so the asset is never
     * null when the contents are set.
     */
    method NotifyFileChanged(path: string) returns (notified: seq<AssetView>)
      modifies this`loaded, set a | a in loaded.Values :: a`contents
      ensures path !in old(loaded) ==> loaded == old(loaded) && notified == []
      ensures path in old(loaded) && Newest(loaders, path, |loaders|).None? ==> loaded == old(loaded) && notified == []
      ensures path in old(loaded) && Newest(loaders, path, |loaders|).Some? ==>
        path in loaded &&
        loaded[path].contents == ReadFile(loaders[Newest(loaders, path, |loaders|).value], path) &&
        notified == LiveViews(loaded[path].views)
      ensures path in old(loaded) && Newest(loaders, path, |loaders|).Some? && old(Cached(path)) ==>
        loaded == old(loaded)
      ensures path in old(loaded) && Newest(loaders, path, |loaders|).Some? && !old(Cached(path)) ==>
        fresh(loaded[path]) && loaded == old(loaded)[path := loaded[path]] && loaded[path].views == [] && notified == []
      ensures forall a | a in old(loaded).Values && (path !in loaded || a != loaded[path]) :: a.contents == old(a.contents)
    {
      notified := [];
      if path !in loaded {
        return;
      }
      var asset := GetResource(path);
      var contents := LoadNewestAssetContents(loaders, path);
      if contents.Some? {
        assert asset != null;
        notified := asset.SetFileContents(contents.value);
      }
    }
  }
}
