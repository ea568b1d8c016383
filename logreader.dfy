// backend/services/logreader_service.go: filling in missing user names from
// the launcher's log files.

module LogReader {
  import opened Wrappers
  import opened Strings
  import opened Patterns
  import opened Models
  import opened StoreFiles
  import opened Sessions

  /** How many log files a search that is not deep reads. */
  const MaxRecentLogFiles := 3

  /** Only lines holding this text are parsed. */
  const EpicLaunchMarker := "FCommunityPortalLaunchAppTask: Preparing to launch app"

  /**
   * One found log file: its lines, or None when it cannot be opened. The
   * files come newest first; the glob and the sort by time are not modelled.
   */
  type LogFile = Option<seq<string>>

  /** A user name seen next to a user ID on a launch line. */
  datatype Sighting = Sighting(userId: string, username: string)

  /** The log files that are read: the newest MaxRecentLogFiles unless the search is deep. */
  function Scanned(logFiles: seq<LogFile>, isDeepSearch: bool): (r: seq<LogFile>)
    ensures !isDeepSearch ==> |r| <= MaxRecentLogFiles
    ensures !isDeepSearch && |logFiles| > MaxRecentLogFiles ==> |r| == MaxRecentLogFiles
    ensures |r| <= |logFiles| && r == logFiles[..|r|]
    ensures isDeepSearch || |logFiles| <= MaxRecentLogFiles ==> r == logFiles
  {
    if !isDeepSearch && |logFiles| > MaxRecentLogFiles then logFiles[..MaxRecentLogFiles] else logFiles
  }

  /** A launch line with both patterns matching gives a sighting; any other line gives none. */
  function ParseLaunchLine(line: string): Option<Sighting> {
    if !Contains(line, EpicLaunchMarker) then None
    else match (Find(UsernamePattern, line), Find(UserIdPattern, line))
      case (Some(name), Some(id)) => Some(Sighting(id, name))
      case _ => None
  }

  /**
   * A line gives a sighting exactly when it holds the marker and both
   * patterns match somewhere in it; the user name is quote-free and the user
   * ID lower-case hexadecimal, neither empty.
   */
  lemma ParseLaunchLineMeaning(line: string)
    ensures var r := ParseLaunchLine(line);
      && (r.Some? <==>
        Contains(line, EpicLaunchMarker)
        && (exists i :: 0 <= i <= |line| && MatchAt(UsernamePattern, line, i).Some?)
        && (exists i :: 0 <= i <= |line| && MatchAt(UserIdPattern, line, i).Some?))
      && (r.Some? ==> r.value.userId != "" && r.value.username != "")
      && (r.Some? ==> forall k :: 0 <= k < |r.value.username| ==> r.value.username[k] != '"')
      && (r.Some? ==> forall k :: 0 <= k < |r.value.userId| ==> InClass(LowerHexDigit, r.value.userId[k]))
  {
    FindIsLeftmost(UsernamePattern, line);
    FindIsLeftmost(UserIdPattern, line);
  }

  /**
   * Both directions: a line gives the sighting (id, name) exactly when it
   * holds the marker, `name` is the group of the leftmost user-name match
   * and `id` the group of the leftmost user-ID match.
   */
  lemma ParseLaunchLineGroups(line: string, id: string, name: string)
    ensures ParseLaunchLine(line) == Some(Sighting(id, name)) <==>
      && Contains(line, EpicLaunchMarker)
      && LeftmostGroup(UsernamePattern, line, name)
      && LeftmostGroup(UserIdPattern, line, id)
  {
    FindMeaning(UsernamePattern, line, name);
    FindMeaning(UserIdPattern, line, id);
  }

  /** Every line that is read, in scan order: the files in turn, skipping those that do not open. */
  function AllLines(files: seq<LogFile>): seq<string> {
    if files == [] then []
    else
      var last := files[|files| - 1];
      AllLines(files[..|files| - 1]) + (if last.Some? then last.value else [])
  }

  /** What each line gives, in order. */
  function Sightings(lines: seq<string>): (r: seq<Option<Sighting>>)
    ensures |r| == |lines|
  {
    seq(|lines|, k requires 0 <= k < |lines| => ParseLaunchLine(lines[k]))
  }

  /** The userId → username map the scan builds: each sighting overwrites the earlier one. */
  function Collect(sightings: seq<Option<Sighting>>): map<string, string> {
    if sightings == [] then map[]
    else
      var m := Collect(sightings[..|sightings| - 1]);
      match sightings[|sightings| - 1]
      case Some(s) => m[s.userId := s.username]
      case None => m
  }

  /** The map the scan of `lines` builds. */
  function UsernameMap(lines: seq<string>): map<string, string> {
    Collect(Sightings(lines))
  }

  /** One more line updates the map by its sighting, if it has one. */
  lemma UsernameMapStep(lines: seq<string>, line: string)
    ensures UsernameMap(lines + [line]) ==
      match ParseLaunchLine(line)
      case Some(s) => UsernameMap(lines)[s.userId := s.username]
      case None => UsernameMap(lines)
  {
    var all := lines + [line];
    assert all[..|lines|] == lines;
    assert Sightings(all) == Sightings(lines) + [ParseLaunchLine(line)];
    assert (Sightings(lines) + [ParseLaunchLine(line)])[..|lines|] == Sightings(lines);
  }

  /** One more file adds its lines at the end, or nothing when it did not open. */
  lemma AllLinesStep(files: seq<LogFile>, i: nat)
    requires i < |files|
    ensures AllLines(files[..i + 1]) == AllLines(files[..i]) + (if files[i].Some? then files[i].value else [])
  {
    assert files[..i + 1][..i] == files[..i];
  }

  /** Entry k of `sightings` sights user ID `id`. */
  predicate SightsAt(sightings: seq<Option<Sighting>>, k: int, id: string) {
    0 <= k < |sightings| && sightings[k].Some? && sightings[k].value.userId == id
  }

  /** Entry k is the last one of `sightings` that sights `id`. */
  predicate LastSightingAt(sightings: seq<Option<Sighting>>, k: int, id: string) {
    SightsAt(sightings, k, id) && forall j :: k < j < |sightings| ==> !SightsAt(sightings, j, id)
  }

  /** A user ID is in the map exactly when some sighting names it. */
  lemma {:induction false} SightedIffCollected(sightings: seq<Option<Sighting>>, id: string)
    ensures id in Collect(sightings) <==> exists k :: SightsAt(sightings, k, id)
    decreases |sightings|
  {
    if sightings != [] {
      var n := |sightings| - 1;
      var init, last := sightings[..n], sightings[n];
      SightedIffCollected(init, id);
      if id in Collect(sightings) {
        if last.Some? && last.value.userId == id {
          assert SightsAt(sightings, n, id);
        } else {
          var k :| SightsAt(init, k, id);
          assert SightsAt(sightings, k, id);
        }
      }
      if k :| SightsAt(sightings, k, id) {
        if k < n {
          assert SightsAt(init, k, id);
        }
      }
    }
  }

  /** The map holds the user name of the last sighting of a user ID. */
  lemma {:induction false} LastSightingCollected(sightings: seq<Option<Sighting>>, k: int, id: string)
    requires LastSightingAt(sightings, k, id)
    ensures id in Collect(sightings) && Collect(sightings)[id] == sightings[k].value.username
    decreases |sightings|
  {
    var n := |sightings| - 1;
    if k < n {
      var init := sightings[..n];
      assert !SightsAt(sightings, n, id);
      assert LastSightingAt(init, k, id) by {
        forall j | k < j < |init|
          ensures !SightsAt(init, j, id)
        {
          assert !SightsAt(sightings, j, id);
        }
      }
      LastSightingCollected(init, k, id);
    }
  }

  /**
   * Last write wins: a user ID is in the map exactly when some sighting
   * names it, and it maps to the user name of the last such sighting.
   */
  lemma LastWriteWins(sightings: seq<Option<Sighting>>, id: string)
    ensures id in Collect(sightings) <==> exists k :: SightsAt(sightings, k, id)
    ensures forall k :: LastSightingAt(sightings, k, id) ==> Collect(sightings)[id] == sightings[k].value.username
  {
    SightedIffCollected(sightings, id);
    forall k | LastSightingAt(sightings, k, id)
      ensures Collect(sightings)[id] == sightings[k].value.username
    {
      LastSightingCollected(sightings, k, id);
    }
  }

  /**
   * The sessions after the back-fill: an empty user name whose user ID was
   * sighted takes the sighted name and a new update time; nothing else moves.
   */
  function Filled(sessions: seq<LoginSession>, found: map<string, string>, now: Timestamp): (r: seq<LoginSession>)
    ensures |r| == |sessions|
    ensures forall i :: 0 <= i < |r| ==> r[i].userId == sessions[i].userId
    ensures forall i :: 0 <= i < |r| && sessions[i].username != "" ==> r[i] == sessions[i]
    ensures forall i :: 0 <= i < |r| && sessions[i].userId !in found ==> r[i] == sessions[i]
    ensures forall i :: 0 <= i < |r| && sessions[i].username == "" && sessions[i].userId in found ==>
      r[i] == sessions[i].(username := found[sessions[i].userId], updatedAt := now)
  {
    seq(|sessions|, i requires 0 <= i < |sessions| => FillOne(sessions[i], found, now))
  }

  function FillOne(s: LoginSession, found: map<string, string>, now: Timestamp): LoginSession {
    if s.username == "" && s.userId in found then s.(username := found[s.userId], updatedAt := now) else s
  }

  /** Some session has an empty user name and a sighted user ID. */
  predicate NeedsFill(sessions: seq<LoginSession>, found: map<string, string>) {
    exists i :: 0 <= i < |sessions| && sessions[i].username == "" && sessions[i].userId in found
  }

  /** No stored user name is ever overwritten, and a fill with nothing to fill changes nothing. */
  lemma FillNeverOverwrites(sessions: seq<LoginSession>, found: map<string, string>, now: Timestamp)
    ensures forall i :: 0 <= i < |sessions| && sessions[i].username != "" ==>
      Filled(sessions, found, now)[i].username == sessions[i].username
    ensures !NeedsFill(sessions, found) ==> Filled(sessions, found, now) == sessions
  {
  }

  /** The inner loop of the scan: the lines of one file, on top of the map of the lines before it. */
  method ScanLines(found0: map<string, string>, ghost before: seq<string>, lines: seq<string>)
    returns (found: map<string, string>)
    requires found0 == UsernameMap(before)
    ensures found == UsernameMap(before + lines)
  {
    found := found0;
    assert before + lines[..0] == before;
    for l := 0 to |lines|
      invariant found == UsernameMap(before + lines[..l])
    {
      UsernameMapStep(before + lines[..l], lines[l]);
      assert before + lines[..l + 1] == before + lines[..l] + [lines[l]];
      var sighting := ParseLaunchLine(lines[l]);
      if sighting.Some? {
        found := found[sighting.value.userId := sighting.value.username];
      }
    }
    assert lines[..|lines|] == lines;
  }

  /** The nested scan of the log files, building the map line by line. */
  method ScanLogFiles(files: seq<LogFile>) returns (found: map<string, string>)
    ensures found == UsernameMap(AllLines(files))
  {
    found := map[];
    for f := 0 to |files|
      invariant found == UsernameMap(AllLines(files[..f]))
    {
      AllLinesStep(files, f);
      if files[f].None? {
        assert AllLines(files[..f]) + [] == AllLines(files[..f]);
        continue;
      }
      found := ScanLines(found, AllLines(files[..f]), files[f].value);
    }
    assert files[..|files|] == files;
  }

  /** The back-fill loop of SyncUsernames: fill the empty user names from the map, noting whether any was filled. */
  method FillMissingUsernames(sessions: seq<LoginSession>, found: map<string, string>, now: Timestamp)
    returns (filled: seq<LoginSession>, changed: bool)
    ensures filled == Filled(sessions, found, now)
    ensures changed <==> NeedsFill(sessions, found)
  {
    filled := sessions;
    changed := false;
    for k := 0 to |filled|
      invariant |filled| == |sessions|
      invariant forall j :: 0 <= j < k ==> filled[j] == FillOne(sessions[j], found, now)
      invariant forall j :: k <= j < |filled| ==> filled[j] == sessions[j]
      invariant changed <==> exists j :: 0 <= j < k && sessions[j].username == "" && sessions[j].userId in found
    {
      if filled[k].username == "" {
        if filled[k].userId in found {
          filled := filled[k := filled[k].(username := found[filled[k].userId], updatedAt := now)];
          changed := true;
        }
      }
    }
  }

  /** Without log files there is nothing to sight. */
  lemma NoLogsNoSightings(isDeepSearch: bool)
    ensures UsernameMap(AllLines(Scanned([], isDeepSearch))) == map[]
  {
    assert Sightings([]) == [];
  }

  /**
   * SyncUsernames: returns true, having saved, exactly when some session with
   * an empty user name has its user ID sighted in the scanned logs; else the
   * file is only ensured.
   */
  method SyncUsernames(store: SessionStore, isDeepSearch: bool, logFiles: seq<LogFile>, now: Timestamp)
    returns (changed: bool)
    modifies store
    ensures var found := UsernameMap(AllLines(Scanned(logFiles, isDeepSearch)));
      && (changed <==> NeedsFill(old(store.Sessions()), found))
      && store.file == if changed then Holds(Filled(old(store.Sessions()), found, now)) else Ensured(old(store.file))
  {
    var sessions := store.LoadSessions();
    if |sessions| == 0 {
      return false;
    }
    var hasMissing := false;
    var i := 0;
    while i < |sessions|
      invariant 0 <= i <= |sessions|
      invariant forall j :: 0 <= j < i ==> sessions[j].username != ""
    {
      if sessions[i].username == "" {
        hasMissing := true;
        break;
      }
      i := i + 1;
    }
    if !hasMissing {
      return false;
    }
    if |logFiles| == 0 {
      NoLogsNoSightings(isDeepSearch);
      return false;
    }
    var files := logFiles;
    if !isDeepSearch && |files| > MaxRecentLogFiles {
      files := files[..MaxRecentLogFiles];
    }
    assert files == Scanned(logFiles, isDeepSearch);
    var found := ScanLogFiles(files);
    if |found| == 0 {
      return false;
    }
    var filled;
    filled, changed := FillMissingUsernames(sessions, found, now);
    if changed {
      store.SaveSessions(filled);
      return true;
    }
    return false;
  }
}
