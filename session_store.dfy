// backend/services/session_store.go: the JSON list of known launcher accounts.

module Sessions {
  import opened Wrappers
  import opened Models
  import opened StoreFiles

  datatype StoreError = SessionNotFound

  /** Index of the first session of `userId`, the one the store's loops stop at. */
  function IndexOfUser(sessions: seq<LoginSession>, userId: string): (r: Option<nat>)
    ensures r.Some? ==> r.value < |sessions| && sessions[r.value].userId == userId
    ensures r.Some? ==> forall j :: 0 <= j < r.value ==> sessions[j].userId != userId
    ensures r.None? <==> forall j :: 0 <= j < |sessions| ==> sessions[j].userId != userId
  {
    if sessions == [] then None
    else if sessions[0].userId == userId then Some(0)
    else match IndexOfUser(sessions[1..], userId)
      case Some(k) => Some(k + 1)
      case None => None
  }

  predicate Known(sessions: seq<LoginSession>, userId: string) {
    IndexOfUser(sessions, userId).Some?
  }

  /**
   * The record addOrUpdate leaves in place of a stored one: user name and
   * token only fill empty fields, a non-empty incoming alias replaces the
   * stored one, and the update time is restamped.
   */
  function Merged(stored: LoginSession, incoming: LoginSession, now: Timestamp): LoginSession {
    stored.(
      username := if stored.username == "" && incoming.username != "" then incoming.username else stored.username,
      loginToken := if stored.loginToken == "" && incoming.loginToken != "" then incoming.loginToken else stored.loginToken,
      alias := if incoming.alias != "" then incoming.alias else stored.alias,
      updatedAt := now)
  }

  /**
   * The list addOrUpdate saves. A new record gets both time stamps from the
   * clock; the source reads the clock twice for it, hence `now` and `later`.
   */
  function AddedOrUpdated(sessions: seq<LoginSession>, incoming: LoginSession,
                          now: Timestamp, later: Timestamp): seq<LoginSession> {
    match IndexOfUser(sessions, incoming.userId)
    case Some(i) => sessions[i := Merged(sessions[i], incoming, now)]
    case None => sessions + [incoming.(createdAt := now, updatedAt := later)]
  }

  /** The list UpdateAlias saves, or None when no session has the user ID. */
  function WithAlias(sessions: seq<LoginSession>, userId: string, alias: string,
                     now: Timestamp): Option<seq<LoginSession>> {
    match IndexOfUser(sessions, userId)
    case Some(i) => Some(sessions[i := sessions[i].(alias := alias, updatedAt := now)])
    case None => None
  }

  /** A new user ID: exactly one record is appended, carrying the incoming fields. */
  lemma AddNewAppends(sessions: seq<LoginSession>, incoming: LoginSession, now: Timestamp, later: Timestamp)
    requires !Known(sessions, incoming.userId)
    ensures var r := AddedOrUpdated(sessions, incoming, now, later);
      |r| == |sessions| + 1 && r[..|sessions|] == sessions
      && r[|sessions|] == incoming.(createdAt := now, updatedAt := later)
  {
  }

  /** A known user ID: the list keeps its length and the order of its user IDs. */
  lemma AddKnownKeepsShape(sessions: seq<LoginSession>, incoming: LoginSession, now: Timestamp, later: Timestamp)
    requires Known(sessions, incoming.userId)
    ensures var r := AddedOrUpdated(sessions, incoming, now, later);
      |r| == |sessions| && forall j :: 0 <= j < |r| ==> r[j].userId == sessions[j].userId
  {
  }

  /** A known user ID: only the first record of that user changes. */
  lemma AddKnownTouchesFirstOnly(sessions: seq<LoginSession>, incoming: LoginSession, now: Timestamp, later: Timestamp)
    requires Known(sessions, incoming.userId)
    ensures var i := IndexOfUser(sessions, incoming.userId).value;
      var r := AddedOrUpdated(sessions, incoming, now, later);
      r[i] == Merged(sessions[i], incoming, now)
      && forall j :: 0 <= j < |r| && j != i ==> r[j] == sessions[j]
  {
  }

  /** The field rules of a merge: what is written, what is never overwritten. */
  lemma MergeFieldRules(stored: LoginSession, incoming: LoginSession, now: Timestamp)
    ensures var m := Merged(stored, incoming, now);
      && (stored.username != "" ==> m.username == stored.username)
      && (stored.username == "" ==> m.username == incoming.username)
      && (stored.loginToken != "" ==> m.loginToken == stored.loginToken)
      && (stored.loginToken == "" ==> m.loginToken == incoming.loginToken)
      && (incoming.alias != "" ==> m.alias == incoming.alias)
      && (incoming.alias == "" ==> m.alias == stored.alias)
      && m.userId == stored.userId && m.createdAt == stored.createdAt && m.updatedAt == now
  {
  }

  /** UpdateAlias: a known user gets the alias in its first record; no other field or record moves. */
  lemma AliasTouchesOnlyAlias(sessions: seq<LoginSession>, userId: string, alias: string, now: Timestamp)
    ensures WithAlias(sessions, userId, alias, now).None? <==> !Known(sessions, userId)
    ensures Known(sessions, userId) ==>
      var i := IndexOfUser(sessions, userId).value;
      var r := WithAlias(sessions, userId, alias, now).value;
      |r| == |sessions| && r[i].alias == alias && r[i].updatedAt == now
      && r[i].(alias := sessions[i].alias, updatedAt := sessions[i].updatedAt) == sessions[i]
      && forall j :: 0 <= j < |r| && j != i ==> r[j] == sessions[j]
  {
  }

  /** The session store: one JSON file of LoginSession records. */
  class SessionStore {
    var file: StoredFile<LoginSession>

    constructor (initial: StoredFile<LoginSession>)
      ensures file == initial
    {
      file := initial;
    }

    /** The sessions a load of the file returns. */
    function Sessions(): seq<LoginSession>
      reads this
    {
      Contents(file)
    }

    /** ensureFile: create the file holding an empty list when it is missing. */
    method EnsureFile()
      modifies this
      ensures file == Ensured(old(file))
    {
      if file == Missing {
        file := Holds([]);
      }
    }

    /** LoadSessions: ensure the file, then decode it; a missing file reads as the empty list. */
    method LoadSessions() returns (sessions: seq<LoginSession>)
      modifies this
      ensures file == Ensured(old(file))
      ensures sessions == old(Sessions()) && sessions == Sessions()
    {
      EnsureFile();
      sessions := if file.Holds? then file.items else [];
    }

    method SaveSessions(sessions: seq<LoginSession>)
      modifies this
      ensures file == Holds(sessions)
    {
      file := Holds(sessions);
    }

    /** UpdateAlias: set the alias of the first session of `userId` and save, or fail without saving. */
    method UpdateAlias(userId: string, alias: string, now: Timestamp) returns (r: Outcome<StoreError>)
      modifies this
      ensures WithAlias(old(Sessions()), userId, alias, now).Some? ==>
        r == Pass && file == Holds(WithAlias(old(Sessions()), userId, alias, now).value)
      ensures WithAlias(old(Sessions()), userId, alias, now).None? ==>
        r == Fail(SessionNotFound) && file == Ensured(old(file))
    {
      var sessions := LoadSessions();
      var i := 0;
      while i < |sessions|
        invariant 0 <= i <= |sessions|
        invariant forall j :: 0 <= j < i ==> sessions[j].userId != userId
      {
        if sessions[i].userId == userId {
          sessions := sessions[i := sessions[i].(alias := alias, updatedAt := now)];
          SaveSessions(sessions);
          return Pass;
        }
        i := i + 1;
      }
      return Fail(SessionNotFound);
    }

    /** addOrUpdate: merge into the first session of the same user, or append; then save. */
    method AddOrUpdate(session: LoginSession, now: Timestamp, later: Timestamp)
      modifies this
      ensures file == Holds(AddedOrUpdated(old(Sessions()), session, now, later))
    {
      var sessions := LoadSessions();
      var found := false;
      var i := 0;
      while i < |sessions|
        invariant 0 <= i <= |sessions|
        invariant sessions == old(Sessions())
        invariant forall j :: 0 <= j < i ==> sessions[j].userId != session.userId
      {
        var item := sessions[i];
        if item.userId == session.userId {
          if item.username == "" && session.username != "" {
            sessions := sessions[i := sessions[i].(username := session.username)];
          }
          if item.loginToken == "" && session.loginToken != "" {
            sessions := sessions[i := sessions[i].(loginToken := session.loginToken)];
          }
          if session.alias != "" {
            sessions := sessions[i := sessions[i].(alias := session.alias)];
          }
          sessions := sessions[i := sessions[i].(updatedAt := now)];
          found := true;
          assert sessions == AddedOrUpdated(old(Sessions()), session, now, later);
          break;
        }
        i := i + 1;
      }
      if !found {
        sessions := sessions + [session.(createdAt := now, updatedAt := later)];
      }
      SaveSessions(sessions);
    }
  }
}
