// backend/middleware/avatar_handler.go: which file, if any, an avatar
// request is answered with.

module AvatarRouting {
  import opened Strings
  import opened FilePaths
  import opened Avatars

  const ThumbPrefix := "/avatar-thumb/"
  const FullPrefix := "/avatar-full/"

  /** What the middleware does with a request: serve a file of the avatar directory, answer 404, or pass it on. */
  datatype Response = ServeFile(name: string) | NotFound | Next

  /**
   * The handler for a URL path, where `present` holds the names in the
   * avatar directory that os.Stat finds. The thumbnail name is built inline
   * as the handler does. Thumbnail requests never pass on; only present
   * files are served; other paths always pass on.
   */
  function Route(path: string, present: set<string>): (r: Response)
    ensures r.ServeFile? ==> r.name in present
    ensures HasPrefix(path, ThumbPrefix) ==> r != Next
    ensures !HasPrefix(path, ThumbPrefix) && !HasPrefix(path, FullPrefix) ==> r == Next
  {
    if HasPrefix(path, ThumbPrefix) then
      var filename := TrimPrefix(path, ThumbPrefix);
      var ext := Ext(filename);
      var base := TrimSuffix(filename, ext);
      var thumbFilename := base + "_thumb" + ext;
      if thumbFilename in present then ServeFile(thumbFilename) else NotFound
    else if HasPrefix(path, FullPrefix) then
      var filename := TrimPrefix(path, FullPrefix);
      if filename in present then ServeFile(filename) else Next
    else Next
  }

  /** The thumbnail the handler looks for is the one the avatar service writes. */
  lemma ThumbRouteUsesServiceName(f: string, present: set<string>)
    ensures Route(ThumbPrefix + f, present) ==
      if ThumbnailName(f) in present then ServeFile(ThumbnailName(f)) else NotFound
  {
    assert HasPrefix(ThumbPrefix + f, ThumbPrefix);
    assert TrimPrefix(ThumbPrefix + f, ThumbPrefix) == f;
    assert HasSuffix(f, Ext(f));
    assert TrimSuffix(f, Ext(f)) == Stem(f);
  }

  /**
   * The thumbnail prefix is decided first and never falls through: such a
   * request is served a thumbnail name or answered 404.
   */
  lemma ThumbRequestsNeverFallThrough(path: string, present: set<string>)
    requires HasPrefix(path, ThumbPrefix)
    ensures Route(path, present) == NotFound
      || (Route(path, present).ServeFile? && IsThumbnail(Route(path, present).name))
  {
    var f := path[|ThumbPrefix|..];
    assert path == ThumbPrefix + f;
    ThumbRouteUsesServiceName(f, present);
    ThumbnailNameIsThumbnail(f);
  }

  /** A full-image request is served that file when it exists and otherwise passed on. */
  lemma FullRoute(f: string, present: set<string>)
    ensures Route(FullPrefix + f, present) == if f in present then ServeFile(f) else Next
  {
    assert !HasPrefix(FullPrefix + f, ThumbPrefix) by {
      assert (FullPrefix + f)[8] == 'f' && ThumbPrefix[8] == 't';
    }
    assert HasPrefix(FullPrefix + f, FullPrefix);
    assert TrimPrefix(FullPrefix + f, FullPrefix) == f;
  }
}
