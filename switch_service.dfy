// backend/services/switch_service.go: the session file the switcher writes
// for an account, and reading it back through the auth service.

module Switch {
  import opened Wrappers
  import opened Strings
  import opened Models
  import opened Auth

  /** The INI header the switcher writes before the stored token. */
  const RememberMePrefix := "[RememberMe]\nEnable=True\nData="

  /** SwitchAccount's new session file: the header, then the token, with no line end. */
  function SessionFileContent(token: string): (content: string)
    ensures HasPrefix(content, RememberMePrefix)
    ensures content[|RememberMePrefix|..] == token
  {
    RememberMePrefix + token
  }

  /** A token as GetCurrentLoginSession hands it out: long enough, one line, trimmed. */
  predicate WellFormedToken(t: string) {
    Utf8Len(t) >= MinTokenLength && NoLineBreak(t) && Trimmed(t)
  }

  /**
   * Reading back a written session file: the `Data=` line of the header is
   * the first one, so the token read is the written one, trimmed, and is
   * refused as "logged out" when that is shorter than MinTokenLength bytes.
   */
  lemma {:induction false} SessionFileReadBack(t: string)
    requires t != [] && NoLineBreak(t)
    ensures ExtractToken(SessionFileContent(t)) ==
      if Utf8Len(TrimSpace(t)) < MinTokenLength then Err(LoggedOut) else Ok(TrimSpace(t))
  {
    var c := SessionFileContent(t);
    var n := |RememberMePrefix|;
    assert n == 30;
    assert c[..n] == RememberMePrefix;
    assert c[25..30] == "Data=";
    assert c[n..] == t;
    assert DataLineAt(c, 25);
    forall k | 0 <= k < 25
      ensures !DataLineAt(c, k)
    {
      assert c[k] == RememberMePrefix[k] != 'D';
      assert c[k..k + 5][0] == c[k];
    }
    assert HasPrefix(c[n..], t);
    FirstDataLineGivesToken(c, 25, t);
  }

  /** Round trip: a well-formed token written by the switcher is read back unchanged. */
  lemma SessionFileRoundTrip(t: string)
    requires WellFormedToken(t)
    ensures ExtractToken(SessionFileContent(t)) == Ok(t)
  {
    SessionFileReadBack(t);
    TrimSpaceKeepsTrimmed(t);
  }

  /**
   * After a switch to a stored account, the launcher's current session is
   * that account's user and token, provided the Data folder names the user.
   */
  lemma SwitchedAccountIsCurrent(s: LoginSession, dataFolder: Located<seq<DirEntry>>)
    requires WellFormedToken(s.loginToken)
    requires UserIdOf(dataFolder) == Ok(s.userId)
    ensures CurrentSession(LauncherFiles(Found(SessionFileContent(s.loginToken)), dataFolder))
      == Ok(EmptySession.(userId := s.userId, loginToken := s.loginToken))
  {
    SessionFileRoundTrip(s.loginToken);
  }
}
