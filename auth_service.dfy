// backend/services/auth_service.go: reading the launcher's current login,
// classifying it against the stores, and renewing a stored token.

module Auth {
  import opened Wrappers
  import opened Strings
  import opened FilePaths
  import opened Patterns
  import opened Models
  import opened StoreFiles
  import opened Sessions
  import opened Ignores

  datatype AuthError =
    | SessionFileNotFound    // "session (.ini) file not found"
    | SessionFileUnreadable  // "cannot read session file"
    | NoToken                // "no token found"
    | LoggedOut              // "no valid login token found (user likely logged out)"
    | DataPathUnresolved     // "could not resolve Epic Data path"
    | DataFolderUnreadable   // "cannot read Epic Data folder"
    | NoDataFiles            // "no files found in Epic Data folder"
    | NoUserId               // "could not extract user ID from file"

  /** A file or folder of the launcher as the OS hands it over: path not found, unreadable, or read. */
  datatype Located<T> = Unresolved | Unreadable | Found(contents: T)

  /** One entry of os.ReadDir; `modTime` is None when entry.Info() fails. */
  datatype DirEntry = DirEntry(name: string, isDir: bool, modTime: Option<int>)

  /** What the service reads of the launcher: its session INI text and its Data folder. */
  datatype LauncherFiles = LauncherFiles(sessionIni: Located<string>, dataFolder: Located<seq<DirEntry>>)

  /** Tokens shorter than this many bytes mean the user is logged out. */
  const MinTokenLength := 1000

  /** time.Time's zero value, where the newest-file search starts; times compare as numbers. */
  const ZeroTime := 0

  predicate IsLineBreak(c: char) {
    c == '\r' || c == '\n'
  }

  predicate NoLineBreak(s: string) {
    forall k :: 0 <= k < |s| ==> !IsLineBreak(s[k])
  }

  /** `Data=` at index i, followed by at least one character other than CR and LF. */
  predicate DataLineAt(content: string, i: int) {
    OccursAt(content, "Data=", i) && i + 5 < |content| && !IsLineBreak(content[i + 5])
  }

  /**
   * The token GetCurrentLoginSession takes from the INI text: the rest of
   * the first `Data=` line, trimmed, and at least MinTokenLength bytes long.
   */
  function ExtractToken(content: string): (r: Result<string, AuthError>)
    ensures r.Err? ==> r.error == NoToken || r.error == LoggedOut
    ensures r.Ok? ==> Utf8Len(r.value) >= MinTokenLength
    ensures r.Ok? ==> Trimmed(r.value)
  {
    match Find(TokenPattern, content)
    case None => Err(NoToken)
    case Some(raw) =>
      var token := TrimSpace(raw);
      if Utf8Len(token) < MinTokenLength then Err(LoggedOut) else Ok(token)
  }

  /** The token regular expression matches exactly at the `Data=` lines, capturing the line's rest. */
  lemma TokenMatchIsDataLine(content: string, i: nat)
    requires i <= |content|
    ensures MatchAt(TokenPattern, content, i).Some? <==> DataLineAt(content, i)
  {
    if OccursAt(content, "Data=", i) {
      assert HasPrefix(content[i..], "Data=");
      assert i + 5 < |content| ==> content[i + 5..][0] == content[i + 5];
    }
  }

  /** Trimming a one-line text keeps it on one line. */
  lemma TrimSpaceKeepsOneLine(raw: string)
    requires NoLineBreak(raw)
    ensures NoLineBreak(TrimSpace(raw))
  {
    var t := TrimSpace(raw);
    var i :| 0 <= i <= |raw| && OccursAt(raw, t, i);
    forall k | 0 <= k < |t|
      ensures !IsLineBreak(t[k])
    {
      assert t[k] == raw[i + k];
    }
  }

  /** An extracted token lies on one line: it holds neither CR nor LF. */
  lemma ExtractedTokenIsOneLine(content: string)
    ensures ExtractToken(content).Ok? ==> NoLineBreak(ExtractToken(content).value)
  {
    FindIsLeftmost(TokenPattern, content);
    var g := Find(TokenPattern, content);
    if g.Some? {
      var raw := g.value;
      assert forall j :: 0 <= j < |raw| ==> InClass(NotLineBreak, raw[j]);
      TrimSpaceKeepsOneLine(raw);
    }
  }

  /** With no `Data=` line the answer is "no token found". */
  lemma NoDataLineNoToken(content: string)
    ensures ExtractToken(content) == Err(NoToken) <==> forall i :: 0 <= i <= |content| ==> !DataLineAt(content, i)
  {
    FindIsLeftmost(TokenPattern, content);
    forall i | 0 <= i <= |content| {
      TokenMatchIsDataLine(content, i);
    }
  }

  /**
   * Independent statement of the extraction: at the first `Data=` line the
   * token is the rest of that line, up to CR, LF or the end, trimmed; fewer
   * than MinTokenLength bytes is "logged out".
   */
  lemma {:induction false} FirstDataLineGivesToken(content: string, i: nat, rest: string)
    requires DataLineAt(content, i)
    requires forall k :: 0 <= k < i ==> !DataLineAt(content, k)
    requires HasPrefix(content[i + 5..], rest) && NoLineBreak(rest)
    requires i + 5 + |rest| == |content| || IsLineBreak(content[i + 5 + |rest|])
    ensures ExtractToken(content) ==
      if Utf8Len(TrimSpace(rest)) < MinTokenLength then Err(LoggedOut) else Ok(TrimSpace(rest))
  {
    forall k | 0 <= k <= i {
      TokenMatchIsDataLine(content, k);
    }
    FirstMatchIsLeftmost(TokenPattern, content, 0);
    var first := FirstMatchFrom(TokenPattern, content, 0);
    assert first == Some(i);
    assert content[i..][5..] == content[i + 5..];
    RunIsMaximalPrefix(NotLineBreak, content[i + 5..], rest);
  }

  // ----- The user ID from the launcher's Data folder -----

  /** An entry the newest-file search can pick: a file whose time is known and after the zero time. */
  predicate Eligible(e: DirEntry) {
    !e.isDir && e.modTime.Some? && e.modTime.value > ZeroTime
  }

  /** Entry k is the newest eligible entry among the first n, and the first of them on ties. */
  predicate IsNewestAmong(entries: seq<DirEntry>, n: int, k: int) {
    0 <= k < n <= |entries| && Eligible(entries[k])
    && (forall i :: 0 <= i < n && Eligible(entries[i]) ==> entries[i].modTime.value <= entries[k].modTime.value)
    && (forall i :: 0 <= i < k && Eligible(entries[i]) ==> entries[i].modTime.value < entries[k].modTime.value)
  }

  predicate IsNewest(entries: seq<DirEntry>, k: int) {
    IsNewestAmong(entries, |entries|, k)
  }

  /** The newest entry is determined: ties go to the earliest. */
  lemma NewestIsUnique(entries: seq<DirEntry>, k1: int, k2: int)
    requires IsNewest(entries, k1) && IsNewest(entries, k2)
    ensures k1 == k2
  {
  }

  /** The entry the newest-file search holds after the first n entries. */
  function NewestAmong(entries: seq<DirEntry>, n: nat): (r: Option<nat>)
    requires n <= |entries|
    ensures r.Some? ==> IsNewestAmong(entries, n, r.value)
    ensures r.None? <==> forall i :: 0 <= i < n ==> !Eligible(entries[i])
  {
    if n == 0 then None
    else
      var e := entries[n - 1];
      match NewestAmong(entries, n - 1)
      case None => if Eligible(e) then Some(n - 1) else None
      case Some(k) =>
        if Eligible(e) && e.modTime.value > entries[k].modTime.value then Some(n - 1) else Some(k)
  }

  /** The loop of getCurrentUserIDFromDataFolder: the strictly later modification time wins. */
  method NewestEntry(entries: seq<DirEntry>) returns (latest: Option<nat>)
    ensures latest == NewestAmong(entries, |entries|)
  {
    latest := None;
    var latestTime := ZeroTime;
    for i := 0 to |entries|
      invariant latest == NewestAmong(entries, i)
      invariant latest.None? ==> latestTime == ZeroTime
      invariant latest.Some? ==> latestTime == entries[latest.value].modTime.value
    {
      var entry := entries[i];
      if entry.isDir {
        continue;
      }
      if entry.modTime.None? {
        continue;
      }
      if entry.modTime.value > latestTime {
        latest := Some(i);
        latestTime := entry.modTime.value;
      }
    }
  }

  /** The user ID in a Data file name: drop the extension, then one leading `OC_`; empty is an error. */
  function UserIdFromFileName(name: string): (r: Result<string, AuthError>)
    ensures r.Ok? ==> r.value != ""
    ensures r.Ok? ==> Stem(name) == "OC_" + r.value || (!HasPrefix(Stem(name), "OC_") && Stem(name) == r.value)
    ensures r.Err? <==> Stem(name) == "" || Stem(name) == "OC_"
    ensures r.Err? ==> r.error == NoUserId
  {
    var id := TrimPrefix(Stem(name), "OC_");
    if id == "" then Err(NoUserId) else Ok(id)
  }

  /** File names built from a user ID and an extension give the user ID back. */
  lemma UserIdFileNameRoundTrip(id: string, ext: string)
    requires id != "" && ext != [] && IsExtension(ext)
    ensures UserIdFromFileName("OC_" + id + ext) == Ok(id)
    ensures !HasPrefix(id, "OC_") ==> UserIdFromFileName(id + ext) == Ok(id)
  {
    StemOfExtended("OC_" + id, ext);
    assert HasPrefix("OC_" + id, "OC_");
    assert ("OC_" + id)[3..] == id;
    StemOfExtended(id, ext);
  }

  /** The outcome of getCurrentUserIDFromDataFolder for a Data folder. */
  function UserIdOf(folder: Located<seq<DirEntry>>): Result<string, AuthError> {
    match folder
    case Unresolved => Err(DataPathUnresolved)
    case Unreadable => Err(DataFolderUnreadable)
    case Found(entries) =>
      match NewestAmong(entries, |entries|)
      case None => Err(NoDataFiles)
      case Some(k) => UserIdFromFileName(entries[k].name)
  }

  /**
   * In a readable folder the user ID is named by the newest eligible file,
   * and "no files found" means there is no eligible file at all.
   */
  lemma UserIdIsFromNewestFile(entries: seq<DirEntry>)
    ensures UserIdOf(Found(entries)) == Err(NoDataFiles) <==> forall i :: 0 <= i < |entries| ==> !Eligible(entries[i])
    ensures forall k :: 0 <= k < |entries| && IsNewest(entries, k) ==>
      UserIdOf(Found(entries)) == UserIdFromFileName(entries[k].name)
  {
    var n := NewestAmong(entries, |entries|);
    if n.Some? {
      forall k | 0 <= k < |entries| && IsNewest(entries, k)
        ensures UserIdOf(Found(entries)) == UserIdFromFileName(entries[k].name)
      {
        NewestIsUnique(entries, k, n.value);
      }
    }
  }

  /** getCurrentUserIDFromDataFolder */
  method CurrentUserId(folder: Located<seq<DirEntry>>) returns (r: Result<string, AuthError>)
    ensures r == UserIdOf(folder)
  {
    match folder
    case Unresolved => return Err(DataPathUnresolved);
    case Unreadable => return Err(DataFolderUnreadable);
    case Found(entries) =>
      var latest := NewestEntry(entries);
      if latest.None? {
        return Err(NoDataFiles);
      }
      r := UserIdFromFileName(entries[latest.value].name);
  }

  /** The outcome of GetCurrentLoginSession for the launcher's files. */
  function CurrentSession(launcher: LauncherFiles): Result<LoginSession, AuthError> {
    match launcher.sessionIni
    case Unresolved => Err(SessionFileNotFound)
    case Unreadable => Err(SessionFileUnreadable)
    case Found(content) =>
      match ExtractToken(content)
      case Err(e) => Err(e)
      case Ok(token) =>
        match UserIdOf(launcher.dataFolder)
        case Err(e) => Err(e)
        case Ok(id) => Ok(EmptySession.(userId := id, loginToken := token))
  }

  /**
   * A current session exists exactly when the INI file holds a valid token
   * and the Data folder names a user; it carries those two and nothing else.
   */
  lemma CurrentSessionNeedsTokenAndUser(launcher: LauncherFiles)
    ensures CurrentSession(launcher).Ok? <==>
      launcher.sessionIni.Found? && ExtractToken(launcher.sessionIni.contents).Ok? && UserIdOf(launcher.dataFolder).Ok?
    ensures CurrentSession(launcher).Ok? ==>
      var s := CurrentSession(launcher).value;
      s.userId == UserIdOf(launcher.dataFolder).value && s.loginToken == ExtractToken(launcher.sessionIni.contents).value
      && s.username == "" && s.alias == "" && s.createdAt == "" && s.updatedAt == ""
  {
  }

  /** GetCurrentLoginSession: the token from the INI text and the user ID from the Data folder. */
  method GetCurrentLoginSession(launcher: LauncherFiles) returns (r: Result<LoginSession, AuthError>)
    ensures r == CurrentSession(launcher)
  {
    match launcher.sessionIni
    case Unresolved => return Err(SessionFileNotFound);
    case Unreadable => return Err(SessionFileUnreadable);
    case Found(content) =>
      var token := ExtractToken(content);
      if token.Err? {
        return Err(token.error);
      }
      var userId := CurrentUserId(launcher.dataFolder);
      if userId.Err? {
        return Err(userId.error);
      }
      return Ok(EmptySession.(userId := userId.value, loginToken := token.value));
  }

  // ----- Classifying and renewing against the stores -----

  /** A login is new when its user is not ignored and has no stored session. */
  predicate IsNewSession(ignored: seq<string>, sessions: seq<LoginSession>, userId: string) {
    userId !in ignored && !Known(sessions, userId)
  }

  /** The ignore list takes precedence: an ignored user is never new, whatever is stored. */
  lemma IgnoredIsNeverNew(ignored: seq<string>, sessions: seq<LoginSession>, userId: string)
    requires userId in ignored
    ensures forall s :: !IsNewSession(ignored, s, userId)
  {
  }

  /** CheckIfSessionIsNew: ask the ignore list first; only then load the sessions. */
  method CheckIfSessionIsNew(ignore: IgnoreListStore, store: SessionStore, userId: string) returns (isNew: bool)
    modifies ignore, store
    ensures isNew == IsNewSession(old(ignore.List()), old(store.Sessions()), userId)
    ensures ignore.file == Ensured(old(ignore.file))
    ensures store.file == if userId in old(ignore.List()) then old(store.file) else Ensured(old(store.file))
  {
    var ignored := ignore.IsIgnored(userId);
    if ignored {
      return false;
    }
    var sessions := store.LoadSessions();
    var i := 0;
    while i < |sessions|
      invariant 0 <= i <= |sessions|
      invariant forall j :: 0 <= j < i ==> sessions[j].userId != userId
    {
      if sessions[i].userId == userId {
        return false;
      }
      i := i + 1;
    }
    return true;
  }

  /** DetectNewLoginSession: the current session if it is new, nothing if ignored or known. */
  method DetectNewLoginSession(launcher: LauncherFiles, ignore: IgnoreListStore, store: SessionStore)
    returns (r: Result<Option<LoginSession>, AuthError>)
    modifies ignore, store
    ensures CurrentSession(launcher).Err? ==>
      r == Err(CurrentSession(launcher).error) && ignore.file == old(ignore.file) && store.file == old(store.file)
    ensures CurrentSession(launcher).Ok? ==>
      var s := CurrentSession(launcher).value;
      && r == Ok(if IsNewSession(old(ignore.List()), old(store.Sessions()), s.userId) then Some(s) else None)
      && ignore.file == Ensured(old(ignore.file))
      && store.file == if s.userId in old(ignore.List()) then old(store.file) else Ensured(old(store.file))
  {
    var found := GetCurrentLoginSession(launcher);
    if found.Err? {
      return Err(found.error);
    }
    var session := found.value;
    var isNew := CheckIfSessionIsNew(ignore, store, session.userId);
    return Ok(if isNew then Some(session) else None);
  }

  /** AddDetectedSession: store an accepted session through addOrUpdate. */
  method AddDetectedSession(store: SessionStore, session: LoginSession, now: Timestamp, later: Timestamp)
    modifies store
    ensures store.file == Holds(AddedOrUpdated(old(store.Sessions()), session, now, later))
  {
    store.AddOrUpdate(session, now, later);
  }

  /** IgnoreDetectedSession: put the user on the ignore list; the user is never new afterwards. */
  method IgnoreDetectedSession(ignore: IgnoreListStore, userId: string)
    modifies ignore
    ensures ignore.List() == Added(old(ignore.List()), userId)
    ensures forall sessions :: !IsNewSession(ignore.List(), sessions, userId)
  {
    ignore.Add(userId);
  }

  /** The list CheckAndRenewLoginToken saves, or None when there is nothing to renew. */
  function Renewed(sessions: seq<LoginSession>, current: LoginSession, now: Timestamp): Option<seq<LoginSession>> {
    match IndexOfUser(sessions, current.userId)
    case Some(i) =>
      if sessions[i].loginToken != current.loginToken
      then Some(sessions[i := sessions[i].(loginToken := current.loginToken, updatedAt := now)])
      else None
    case None => None
  }

  /** Renewal happens exactly when the first record of the user holds another token, and touches only its token and time. */
  lemma RenewTouchesOnlyToken(sessions: seq<LoginSession>, current: LoginSession, now: Timestamp)
    ensures Renewed(sessions, current, now).Some? <==>
      Known(sessions, current.userId) && sessions[IndexOfUser(sessions, current.userId).value].loginToken != current.loginToken
    ensures Renewed(sessions, current, now).Some? ==>
      var i := IndexOfUser(sessions, current.userId).value;
      var r := Renewed(sessions, current, now).value;
      |r| == |sessions| && r[i].loginToken == current.loginToken && r[i].updatedAt == now
      && r[i].(loginToken := sessions[i].loginToken, updatedAt := sessions[i].updatedAt) == sessions[i]
      && forall j :: 0 <= j < |r| && j != i ==> r[j] == sessions[j]
  {
  }

  /** The search-and-replace loop of CheckAndRenewLoginToken, for a session already read from the launcher. */
  method RenewStoredToken(store: SessionStore, current: LoginSession, now: Timestamp) returns (renewed: bool)
    modifies store
    ensures renewed == Renewed(old(store.Sessions()), current, now).Some?
    ensures store.file == if renewed then Holds(Renewed(old(store.Sessions()), current, now).value) else Ensured(old(store.file))
  {
    var sessions := store.LoadSessions();
    var i := 0;
    while i < |sessions|
      invariant 0 <= i <= |sessions|
      invariant forall j :: 0 <= j < i ==> sessions[j].userId != current.userId
    {
      if sessions[i].userId == current.userId {
        if sessions[i].loginToken != current.loginToken {
          sessions := sessions[i := sessions[i].(loginToken := current.loginToken, updatedAt := now)];
          store.SaveSessions(sessions);
          return true;
        }
        return false;
      }
      i := i + 1;
    }
    return false;
  }

  /** CheckAndRenewLoginToken: replace the stored token of the current user when it changed. */
  method CheckAndRenewLoginToken(launcher: LauncherFiles, store: SessionStore, now: Timestamp)
    returns (r: Result<bool, AuthError>)
    modifies store
    ensures CurrentSession(launcher).Err? ==> r == Err(CurrentSession(launcher).error) && store.file == old(store.file)
    ensures CurrentSession(launcher).Ok? ==>
      var renewed := Renewed(old(store.Sessions()), CurrentSession(launcher).value, now);
      && r == Ok(renewed.Some?)
      && store.file == if renewed.Some? then Holds(renewed.value) else Ensured(old(store.file))
  {
    var found := GetCurrentLoginSession(launcher);
    if found.Err? {
      return Err(found.error);
    }
    var renewed := RenewStoredToken(store, found.value, now);
    return Ok(renewed);
  }
}
