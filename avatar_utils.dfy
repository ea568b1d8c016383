// frontend/src/components/modals/CustomizeAvatarModal/avatarUtils.js: the
// avatar URLs the front end asks the middleware for.

module AvatarUrls {
  import opened Wrappers
  import opened Strings
  import opened Avatars
  import opened AvatarRouting

  /** A JavaScript string argument: None stands for null or undefined. */
  type JsString = Option<string>

  /** JavaScript truthiness of a string argument: null, undefined and "" are falsy. */
  predicate Truthy(s: JsString) {
    s.Some? && s.value != ""
  }

  /**
   * The cache-busting counter: it starts at 0 and is incremented after each
   * crop or upload. None is undefined, and 0 is falsy.
   */
  type CacheBust = Option<nat>

  predicate Busts(c: CacheBust) {
    c.Some? && c.value != 0
  }

  /** `s.split('?')[0]`: the text before the first `?`, or all of `s` when it has none. */
  function BeforeQuery(s: string): (r: string)
    ensures HasPrefix(s, r)
    ensures forall k :: 0 <= k < |r| ==> r[k] != '?'
    ensures |r| < |s| ==> s[|r|] == '?'
  {
    if s == [] || s[0] == '?' then [] else [s[0]] + BeforeQuery(s[1..])
  }

  /** Text without a `?`, followed by text starting with `?` or by nothing, splits back at that point. */
  lemma {:induction false} BeforeQueryOfJoin(a: string, b: string)
    requires forall k :: 0 <= k < |a| ==> a[k] != '?'
    requires b == [] || b[0] == '?'
    ensures BeforeQuery(a + b) == a
    decreases |a|
  {
    if a != [] {
      assert (a + b)[1..] == a[1..] + b;
      BeforeQueryOfJoin(a[1..], b);
      assert [a[0]] + a[1..] == a;
    } else {
      assert a + b == b;
    }
  }

  /** getBaseFilename: falsy input comes back as it is; otherwise the text before the first `?`. */
  function BaseFilename(f: JsString): (r: JsString)
    ensures !Truthy(f) ==> r == f
    ensures Truthy(f) ==> r == Some(BeforeQuery(f.value))
    ensures Truthy(f) ==> r.Some? && HasPrefix(f.value, r.value)
    ensures r.Some? ==> forall k :: 0 <= k < |r.value| && Truthy(f) ==> r.value[k] != '?'
  {
    if !Truthy(f) then f else Some(BeforeQuery(f.value))
  }

  /** getBaseFilename is idempotent. */
  lemma BaseFilenameIdempotent(f: JsString)
    ensures BaseFilename(BaseFilename(f)) == BaseFilename(f)
  {
    if Truthy(f) {
      var b := BeforeQuery(f.value);
      BeforeQueryOfJoin(b, []);
      assert b + [] == b;
    }
  }

  /** The query the URL helpers append: `?v=<n>` for a truthy cache-bust value, else nothing. */
  function CacheQuery(c: CacheBust): string {
    if Busts(c) then "?v=" + Decimal(c.value) else ""
  }

  /** The URL for `prefix` and a filename, as both helpers build it; None is null. */
  function AvatarUrl(prefix: string, filename: JsString, cacheBust: CacheBust): JsString
    requires Truthy(filename) ==> BaseFilename(filename).Some?
  {
    if !Truthy(filename) then None
    else Some(prefix + BaseFilename(filename).value + CacheQuery(cacheBust))
  }

  /** getThumbnailUrl */
  function ThumbnailUrl(filename: JsString, cacheBust: CacheBust): (r: JsString)
    ensures r.None? <==> !Truthy(filename)
    ensures r.Some? ==> r.value == ThumbPrefix + BeforeQuery(filename.value) + CacheQuery(cacheBust)
  {
    AvatarUrl(ThumbPrefix, filename, cacheBust)
  }

  /** getFullUrl */
  function FullUrl(filename: JsString, cacheBust: CacheBust): (r: JsString)
    ensures r.None? <==> !Truthy(filename)
    ensures r.Some? ==> r.value == FullPrefix + BeforeQuery(filename.value) + CacheQuery(cacheBust)
  {
    AvatarUrl(FullPrefix, filename, cacheBust)
  }

  /**
   * A query string on the filename never reaches the URL: its only `?` is
   * the cache-bust one, right after the prefix and the base name.
   */
  lemma OnlyCacheBustQuery(prefix: string, filename: JsString, cacheBust: CacheBust)
    requires forall k :: 0 <= k < |prefix| ==> prefix[k] != '?'
    requires Truthy(filename)
    ensures var u := AvatarUrl(prefix, filename, cacheBust).value;
      var at := |prefix| + |BeforeQuery(filename.value)|;
      forall k :: 0 <= k < |u| && u[k] == '?' ==> Busts(cacheBust) && k == at
  {
    var base := BeforeQuery(filename.value);
    var u := AvatarUrl(prefix, filename, cacheBust).value;
    var at := |prefix| + |base|;
    assert u == prefix + base + CacheQuery(cacheBust);
    forall k | 0 <= k < |u|
      ensures u[k] == '?' ==> Busts(cacheBust) && k == at
    {
      if k < |prefix| {
        assert u[k] == prefix[k];
      } else if k < at {
        assert u[k] == base[k - |prefix|];
      } else {
        var q := CacheQuery(cacheBust);
        assert u[k] == q[k - at];
        if k > at {
          var d := Decimal(cacheBust.value);
          assert q == "?v=" + d;
          if k - at >= 3 {
            assert q[k - at] == d[k - at - 3];
          }
        }
      }
    }
  }

  /** The path part of a URL the helpers build: everything before its query. */
  function UrlPath(url: string): string {
    BeforeQuery(url)
  }

  /**
   * End to end: the thumbnail URL the front end builds for an avatar file
   * is answered with the thumbnail the avatar service writes for it, or 404.
   */
  lemma ThumbnailUrlReachesThumbnail(f: string, cacheBust: CacheBust, present: set<string>)
    requires f != "" && forall k :: 0 <= k < |f| ==> f[k] != '?'
    ensures ThumbnailUrl(Some(f), cacheBust).Some?
    ensures Route(UrlPath(ThumbnailUrl(Some(f), cacheBust).value), present) ==
      if ThumbnailName(f) in present then ServeFile(ThumbnailName(f)) else NotFound
  {
    BeforeQueryOfJoin(f, []);
    assert f + [] == f;
    var q := CacheQuery(cacheBust);
    assert q == [] || q[0] == '?';
    var a := ThumbPrefix + f;
    assert forall k :: 0 <= k < |a| ==> a[k] != '?' by {
      forall k | 0 <= k < |a|
        ensures a[k] != '?'
      {
        if k >= |ThumbPrefix| {
          assert a[k] == f[k - |ThumbPrefix|];
        }
      }
    }
    BeforeQueryOfJoin(a, q);
    ThumbRouteUsesServiceName(f, present);
  }

  /** getBorderPreference: shown when nothing is stored, else exactly when the stored text is `true`. */
  function BorderPreference(stored: Option<string>): (show: bool)
    ensures stored.None? ==> show
    ensures stored.Some? ==> (show <==> stored.value == "true")
  {
    if stored.Some? then stored.value == "true" else true
  }
}
