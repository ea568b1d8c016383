# epic-switcher core in Dafny

A Dafny model of the bookkeeping at the heart of epic-switcher, a desktop
account switcher for the Epic Games launcher. The model covers:

- the JSON **session store**: known accounts, merged by user ID;
- the JSON **ignore list**: user IDs never to prompt about;
- the **auth service**. It reads the launcher's current login as a token from
  the `Data=` line of its INI file plus a user ID named by the newest file of
  its Data folder. It classifies that login as new, known or ignored, and
  renews a stored token when it changed;
- the **session file** the switcher writes for an account, and reading it back;
- the **log reader**, which back-fills missing user names from launch lines
  in the launcher's logs;
- the **avatar service**:
  - content-addressed avatar files written only when absent;
  - `_thumb` thumbnail names;
  - the gallery filter;
  - deletion;
  - the MIME tables;
  - the byte-size unit;
- the **avatar middleware**'s routing from a request path to a file, a 404 or
  the next handler;
- the front end's **avatar URL helpers**.

Stateful parts are classes whose fields the methods update:
- `Sessions.SessionStore` and `Ignores.IgnoreListStore` each hold one store
  file (`StoreFiles.StoredFile`: missing, undecodable, or holding a list).
- `Avatars.AvatarLibrary` holds the avatar directory as a map from file name
  to bytes.

Every loop of the source is a `while`/`for` loop proved against a
specification function. That function's properties are proved as lemmas:
- `AddedOrUpdated`, `WithAlias`, `Added` and `Renewed` for the stores;
- `NewestAmong` for the newest Data file;
- `UsernameMap`/`Collect` and `Filled` for the log scan;
- `Gallery` for the avatar list;
- `SizeLabelOf` for the size label.

Pure code is modelled as functions:
- token extraction;
- the file-name rules;
- routing;
- the URL helpers.

The outside world enters through parameters:
- Timestamps are opaque strings passed in, where the source reads the clock.
- The launcher's files are values of `Auth.Located`.
- Log files are a sequence of optional line sequences, already ordered newest first.
- The directory listing, dialog result, file contents and image decoding are
  plain arguments.
- MD5-plus-hex (`digest`) and base64 (`encode`) are function-valued parameters.

Go's regular expressions become three instances of one small matcher,
`Patterns.Pattern`: a literal, a greedy run of one character class, and an
optional closing character. Its search is leftmost-first, as Go's regexp is.
Go strings are `seq<char>`, and Go's `len` is their UTF-8 byte length
(`Strings.Utf8Len`). The `filepath` helpers follow Windows, where `/` and `\`
both separate path elements.

## Model

| member | source | states |
|---|---|---|
| Strings.HasPrefix | backend/middleware/avatar_handler.go:20 | strings.HasPrefix, the test the thumbnail route uses; ConcatHasAffixes states its rules |
| Strings.HasSuffix | backend/services/avatar_service.go:439 | strings.HasSuffix, the test isThumbnailFile uses; ConcatHasAffixes states its rules |
| Strings.Contains | backend/services/logreader_service.go:101 | strings.Contains, the marker test of a log line; ConcatHasAffixes and ContainsAsPrefix state its rules |
| Strings.ConcatHasAffixes | backend/middleware/avatar_handler.go:20-37 | a concatenation a + b starts with a, ends with b, and contains both |
| Strings.ContainsAsPrefix | backend/services/logreader_service.go:101 | both directions: a text contains sub exactly when some suffix of the text starts with sub |
| Strings.TrimPrefix | backend/services/auth_service.go:251-261 | strings.TrimPrefix removes exactly one leading copy of the prefix when present, else returns the text unchanged |
| Strings.TrimSuffix | backend/middleware/avatar_handler.go:21-24 | strings.TrimSuffix removes exactly one trailing copy of the suffix when present, else returns the text unchanged |
| Strings.TrimSpace | backend/services/auth_service.go:43 | the result has no white space at either end and is a contiguous slice of the input |
| Strings.TrimSpaceRemovesOnlySpace | backend/services/auth_service.go:43 | everything TrimSpace removes, before and after the kept slice, is white space |
| Strings.TrimSpaceKeepsTrimmed | backend/services/auth_service.go:43 | a text with no white space at either end is left unchanged |
| Strings.Utf8Len | backend/services/auth_service.go:44 | Go's byte length of a string lies between its character count and four times that |
| Strings.ToLower | backend/services/avatar_service.go:267 | lower-casing keeps the length and maps each character on its own, A-Z to a-z |
| Strings.Decimal | frontend/src/components/modals/CustomizeAvatarModal/avatarUtils.js:30 | the printed number is a non-empty string of decimal digits |
| Strings.DecimalDenotes | frontend/src/components/modals/CustomizeAvatarModal/avatarUtils.js:30 | the printed digits denote the number itself, so `?v=<n>` carries n |
| FilePaths.Ext | backend/services/avatar_service.go:429-433 | filepath.Ext is a suffix of the path, either empty or a dot followed by characters that are neither dots nor separators |
| FilePaths.Stem | backend/services/avatar_service.go:436-440 | the name without its extension, followed by the extension, is the name again |
| FilePaths.ExtOfPlainSuffix | backend/services/avatar_service.go:429-433 | appending dot-free, separator-free text extends an existing extension and leaves a missing one missing |
| FilePaths.StemOfExtended | backend/services/auth_service.go:252-253 | appending a non-empty extension makes it the extension and leaves the original name as the stem |
| FilePaths.IsAbs | backend/services/avatar_service.go:179 | filepath.IsAbs for the Windows drive-letter and UNC forms; IsAbsForms states its rules |
| FilePaths.IsAbsForms | backend/services/avatar_service.go:179 | a drive letter, a colon and a separator start an absolute path, as do two separators; a name without separators, such as a library file name, is never absolute |
| Patterns.Run | backend/services/auth_service.go:38 | the greedy repetition takes the longest prefix made of class characters |
| Patterns.RunIsMaximalPrefix | backend/services/auth_service.go:38 | any prefix of class characters that cannot be extended is the greedy run |
| Patterns.MatchAt | backend/services/auth_service.go:38 | one of the three regular expressions matched at a given start index, capturing its group; MatchAtShape states what a match consists of |
| Patterns.MatchAtShape | backend/services/auth_service.go:38-39 | a match at an index starts with the pattern's literal and captures a non-empty run of class characters that follows it |
| Patterns.MatchAtMeaning | backend/services/logreader_service.go:85-86 | both directions: for a pattern whose closing character is outside its class and a non-empty group g of class characters, the match at index i captures g exactly when the text at i is the literal followed by g, and then by the closing character, or (for a pattern without one, such as `-epicuserid=([a-f0-9]+)`) by the end of the line or a character outside the class |
| Patterns.FirstMatchIsLeftmost | backend/services/auth_service.go:39 | the search settles on the leftmost index where the pattern matches and reports none only when it matches nowhere |
| Patterns.Find | backend/services/auth_service.go:39 | FindStringSubmatch's first group; FindIsLeftmost states its meaning |
| Patterns.FindIsLeftmost | backend/services/logreader_service.go:104-105 | FindStringSubmatch fails exactly when the pattern matches nowhere; otherwise it yields the non-empty class-character group of the leftmost match |
| Patterns.FindMeaning | backend/services/logreader_service.go:104-105 | both directions: FindStringSubmatch captures g exactly when g is the group of the leftmost match, that is, the text reads as a match with group g at some index and nothing matches before it |
| StoreFiles.Ensured | backend/services/session_store.go:23-42 | ensureFile turns a missing store file into one holding the empty list and keeps any other file as it is |
| StoreFiles.Contents | backend/services/session_store.go:44-53 | a load yields the stored list; a file that does not decode as a list yields the empty list |
| StoreFiles.EnsuredKeepsContents | backend/services/ignore_store.go:35-44 | ensuring the file first never changes what a load reads |
| Sessions.IndexOfUser | backend/services/session_store.go:81-84 | the store's loops stop at the first session with the user ID, and the search fails exactly when no session has it |
| Sessions.Merged | backend/services/session_store.go:86-100 | the record addOrUpdate leaves in place of a stored one; MergeFieldRules states its rules |
| Sessions.AddedOrUpdated | backend/services/session_store.go:77-115 | the list addOrUpdate saves; AddNewAppends, AddKnownKeepsShape, AddKnownTouchesFirstOnly and MergeFieldRules state its rules |
| Sessions.AddNewAppends | backend/services/session_store.go:106-111 | addOrUpdate with an unknown user ID appends exactly one record, stamped with the clock, after an unchanged list |
| Sessions.AddKnownKeepsShape | backend/services/session_store.go:81-104 | addOrUpdate with a stored user ID keeps the list length and the order of user IDs |
| Sessions.AddKnownTouchesFirstOnly | backend/services/session_store.go:82-103 | only the first record of the user ID is merged; every other record is untouched |
| Sessions.MergeFieldRules | backend/services/session_store.go:86-100 | a stored user name or token is never overwritten, and an empty one takes the incoming value; a non-empty incoming alias replaces the stored one, an empty one keeps it; ID and creation time stay, and the update time is restamped |
| Sessions.WithAlias | backend/services/session_store.go:63-75 | the list UpdateAlias saves, or none for an unknown user ID; AliasTouchesOnlyAlias states its rules |
| Sessions.AliasTouchesOnlyAlias | backend/services/session_store.go:63-75 | UpdateAlias fails exactly for an unknown user ID; otherwise it changes only the alias and update time of the first matching record |
| Sessions.SessionStore.EnsureFile | backend/services/session_store.go:23-42 | the file becomes its ensured form |
| Sessions.SessionStore.LoadSessions | backend/services/session_store.go:44-53 | the file is ensured, and the sessions returned are the file's contents as decoded |
| Sessions.SessionStore.SaveSessions | backend/services/session_store.go:55-61 | the file afterwards holds exactly the given list |
| Sessions.SessionStore.UpdateAlias | backend/services/session_store.go:63-75 | on a known user ID it saves the list with the new alias and succeeds; on an unknown one it fails with "session not found" and saves nothing |
| Sessions.SessionStore.AddOrUpdate | backend/services/session_store.go:77-115 | the file afterwards holds the merged or extended list |
| Ignores.Added | backend/services/ignore_store.go:54-63 | the list Add leaves; AddIdempotent and AddKeepsOrderAndUniqueness state its rules |
| Ignores.AddIdempotent | backend/services/ignore_store.go:56-60 | adding an ID a second time changes nothing |
| Ignores.AddKeepsOrderAndUniqueness | backend/services/ignore_store.go:54-63 | Add keeps every earlier ID in order and appends a new ID at the end; the ID is present afterwards; a duplicate-free list stays duplicate-free |
| Ignores.IgnoreListStore.EnsureFile | backend/services/ignore_store.go:20-33 | the file becomes its ensured form |
| Ignores.IgnoreListStore.Load | backend/services/ignore_store.go:35-44 | the file is ensured, and the list returned is the file's contents as decoded |
| Ignores.IgnoreListStore.Save | backend/services/ignore_store.go:46-52 | the file afterwards holds exactly the given list |
| Ignores.IgnoreListStore.Add | backend/services/ignore_store.go:54-63 | a present ID leaves the file untouched (nothing is saved); a new ID is appended and saved |
| Ignores.IgnoreListStore.IsIgnored | backend/services/ignore_store.go:65-76 | true exactly when the loaded list holds the ID |
| Ignores.AddThenIsIgnored | backend/services/ignore_store.go:54-76 | after Add(u), IsIgnored(u) answers true |
| Auth.ExtractToken | backend/services/auth_service.go:38-46 | token extraction fails only with "no token found" or "logged out"; an extracted token is at least 1000 bytes long and has no white space at either end |
| Auth.TokenMatchIsDataLine | backend/services/auth_service.go:38-39 | the token expression matches exactly where `Data=` is followed by a character other than CR and LF |
| Auth.ExtractedTokenIsOneLine | backend/services/auth_service.go:38-43 | an extracted token contains neither CR nor LF |
| Auth.NoDataLineNoToken | backend/services/auth_service.go:39-42 | the result is "no token found" exactly when no `Data=` is followed by a non-newline character |
| Auth.FirstDataLineGivesToken | backend/services/auth_service.go:38-46 | the token is the rest of the first `Data=` line, up to CR, LF or the end, with white space trimmed; if that is under 1000 bytes the result is "logged out" |
| Auth.NewestIsUnique | backend/services/auth_service.go:237-244 | there is at most one newest entry, because ties go to the earliest |
| Auth.NewestAmong | backend/services/auth_service.go:232-245 | the search holds the newest eligible file: no eligible one is later, and every earlier one is strictly older. It holds none exactly when no entry is an eligible file |
| Auth.NewestEntry | backend/services/auth_service.go:232-245 | the loop ends holding the newest eligible entry |
| Auth.UserIdFromFileName | backend/services/auth_service.go:251-261 | the user ID is the name without its extension, with one leading `OC_` removed; an empty result is "could not extract user ID" |
| Auth.UserIdFileNameRoundTrip | backend/services/auth_service.go:251-261 | `OC_<id><ext>`, and `<id><ext>` for an id not starting with `OC_`, give back id |
| Auth.UserIdOf | backend/services/auth_service.go:218-262 | getCurrentUserIDFromDataFolder's outcome for a Data folder; UserIdIsFromNewestFile states its meaning |
| Auth.UserIdIsFromNewestFile | backend/services/auth_service.go:218-262 | a readable folder's user ID is named by its newest eligible file, and "no files found" means it has no eligible file |
| Auth.CurrentUserId | backend/services/auth_service.go:218-262 | getCurrentUserIDFromDataFolder gives the folder's user ID or the error of the step that failed |
| Auth.CurrentSession | backend/services/auth_service.go:26-57 | GetCurrentLoginSession's outcome for the launcher's files; CurrentSessionNeedsTokenAndUser states its meaning |
| Auth.CurrentSessionNeedsTokenAndUser | backend/services/auth_service.go:26-57 | a current session exists exactly when the INI text yields a token and the Data folder names a user; it carries exactly those two fields |
| Auth.GetCurrentLoginSession | backend/services/auth_service.go:26-57 | the session is read from the launcher's INI file and Data folder, or the error of the first step that failed |
| Auth.IsNewSession | backend/services/auth_service.go:88-104 | the answer CheckIfSessionIsNew gives; IgnoredIsNeverNew and CheckIfSessionIsNew state its rules |
| Auth.IgnoredIsNeverNew | backend/services/auth_service.go:88-96 | an ignored user is never new, whatever sessions are stored |
| Auth.CheckIfSessionIsNew | backend/services/auth_service.go:88-104 | true exactly when the user is not ignored and has no stored session; the session store is only consulted when the user is not ignored |
| Auth.DetectNewLoginSession | backend/services/auth_service.go:60-86 | it returns the current session only when that user is neither ignored nor stored; it returns nothing when the user is either; it passes on the error when there is no current session |
| Auth.AddDetectedSession | backend/services/auth_service.go:106-113 | the session is stored through addOrUpdate |
| Auth.IgnoreDetectedSession | backend/services/auth_service.go:115-118 | the user is added to the ignore list and is never new afterwards |
| Auth.Renewed | backend/services/auth_service.go:194-213 | the list CheckAndRenewLoginToken saves, if any; RenewTouchesOnlyToken states its rules |
| Auth.RenewTouchesOnlyToken | backend/services/auth_service.go:194-213 | renewal happens exactly when the first stored record of the user holds a different token, and changes only that record's token and update time |
| Auth.RenewStoredToken | backend/services/auth_service.go:194-213 | it returns true and saves the renewed list exactly when renewal applies; otherwise nothing is saved |
| Auth.CheckAndRenewLoginToken | backend/services/auth_service.go:185-214 | renewal runs against the current session; when there is no current session its error is returned and nothing is saved |
| Switch.SessionFileContent | backend/services/switch_service.go:15 | the session file is the RememberMe header followed directly by the token |
| Switch.SessionFileReadBack | backend/services/switch_service.go:71-75 | for a non-empty token with no CR or LF, reading the written file back yields the trimmed token, or "logged out" when that is under 1000 bytes |
| Switch.SessionFileRoundTrip | backend/services/switch_service.go:72 | a token of at least 1000 bytes with no line break and no surrounding white space is read back unchanged |
| Switch.SwitchedAccountIsCurrent | backend/services/switch_service.go:25-92 | after switching to a stored account, the launcher's current session is that account's user and token, provided the Data folder names the user |
| LogReader.Scanned | backend/services/logreader_service.go:77-79 | the files read are always the first ones: exactly 3 on a search that is not deep over more than 3 files, and all of them on a deep search or over 3 files or fewer |
| LogReader.ParseLaunchLine | backend/services/logreader_service.go:100-108 | the marker test and the two pattern matches of one log line; ParseLaunchLineMeaning states its meaning |
| LogReader.ParseLaunchLineMeaning | backend/services/logreader_service.go:100-108 | a line gives a mapping exactly when it holds the launch marker and both patterns match; the user name is non-empty and quote-free, and the user ID is non-empty lower-case hexadecimal |
| LogReader.ParseLaunchLineGroups | backend/services/logreader_service.go:100-108 | both directions: a line gives the mapping from user ID id to user name name exactly when it holds the launch marker, name is the group of the leftmost `-epicusername="…"` match and id the group of the leftmost `-epicuserid=…` match |
| LogReader.Collect | backend/services/logreader_service.go:91-110 | the user ID to user name map built from the sightings in order; UsernameMapStep, SightedIffCollected, LastSightingCollected and LastWriteWins state its rules |
| LogReader.UsernameMap | backend/services/logreader_service.go:91-110 | the map the scan of a sequence of lines builds; UsernameMapStep, SightedIffCollected, LastSightingCollected and LastWriteWins state its rules |
| LogReader.UsernameMapStep | backend/services/logreader_service.go:107 | each further line overwrites the map entry for its user ID, or leaves the map as it was |
| LogReader.SightedIffCollected | backend/services/logreader_service.go:96-110 | a user ID is in the map exactly when some scanned line mentions it |
| LogReader.LastSightingCollected | backend/services/logreader_service.go:107 | a user ID maps to the user name on the last line that mentions it |
| LogReader.LastWriteWins | backend/services/logreader_service.go:91-110 | the map holds exactly the sighted user IDs, each mapped to its last sighted user name |
| LogReader.FillOne | backend/services/logreader_service.go:119-128 | the back-fill of one session; Filled and FillNeverOverwrites state its rules |
| LogReader.NeedsFill | backend/services/logreader_service.go:119-128 | whether the back-fill changes anything (the `changed` flag); FillMissingUsernames, SyncUsernames and FillNeverOverwrites state its rules |
| LogReader.Filled | backend/services/logreader_service.go:119-128 | the back-fill keeps the number, order and user IDs of the sessions; an empty user name with a sighted user ID takes the sighted name and a new update time; every other session is untouched |
| LogReader.FillNeverOverwrites | backend/services/logreader_service.go:120-128 | a stored user name is never overwritten, and with nothing to fill the sessions are unchanged |
| LogReader.ScanLines | backend/services/logreader_service.go:98-109 | scanning one file's lines extends the map of the lines before it |
| LogReader.ScanLogFiles | backend/services/logreader_service.go:91-110 | the nested scan builds the map of all lines of the files that open, in order |
| LogReader.FillMissingUsernames | backend/services/logreader_service.go:119-128 | the loop produces the back-filled sessions, and changed is true exactly when some session needed filling |
| LogReader.NoLogsNoSightings | backend/services/logreader_service.go:63-67 | with no log files nothing is sighted |
| LogReader.SyncUsernames | backend/services/logreader_service.go:34-141 | it returns true, having saved the back-filled sessions, exactly when some session with an empty user name has its user ID sighted in the scanned logs; otherwise nothing is saved |
| Avatars.ThumbnailNameParts | backend/services/avatar_service.go:429-433 | a thumbnail name keeps the extension and extends the name before it by `_thumb` |
| Avatars.ThumbnailName | backend/services/avatar_service.go:429-433 | getThumbnailFilename: the stem, `_thumb`, then the extension; its properties are ThumbnailNameParts, ThumbnailNameInjective and ThumbnailNameIsThumbnail |
| Avatars.IsThumbnail | backend/services/avatar_service.go:436-440 | isThumbnailFile: the name without its extension ends in `_thumb`; ThumbnailNameIsThumbnail and ThumbnailsAreNamed show it accepts exactly the names getThumbnailFilename produces |
| Avatars.ThumbnailsAreNamed | backend/services/avatar_service.go:429-440 | every name isThumbnailFile accepts is the thumbnail name of some file |
| Avatars.ThumbnailNameIsThumbnail | backend/services/avatar_service.go:429-440 | isThumbnailFile accepts every name getThumbnailFilename produces |
| Avatars.ThumbnailNameInjective | backend/services/avatar_service.go:429-433 | different avatar names never share a thumbnail name |
| Avatars.ThumbnailNameExample | backend/services/avatar_service.go:427-433 | `abc123.jpg` becomes `abc123_thumb.jpg` |
| Avatars.Gallery | backend/services/avatar_service.go:243-251 | the gallery is no longer than the listing and holds no thumbnail name |
| Avatars.GalleryMembers | backend/services/avatar_service.go:243-251 | a name is listed exactly when a file entry that is not a thumbnail carries it |
| Avatars.GalleryKeepsOrder | backend/services/avatar_service.go:243-251 | filtering commutes with concatenation, so kept entries come out in directory order |
| Avatars.GetAvailableAvatars | backend/services/avatar_service.go:231-254 | a missing directory gives an empty list; an unreadable one gives an error; otherwise the result is the gallery of its entries |
| Avatars.StoredName | backend/services/avatar_service.go:107-109 | the content-addressed name, the hex MD5 of the bytes plus the source extension, as also built at avatar_service.go:186-189; SameImageSameName, SelectAndSaveAvatar and SaveAvatarWithCrop state its rules |
| Avatars.SavedIfAbsent | backend/services/avatar_service.go:112-130 | the library after a save that writes only a new name; SaveIfAbsentDeduplicates states its rules |
| Avatars.SaveIfAbsentDeduplicates | backend/services/avatar_service.go:113-130 | an existing name is never rewritten; a new name holds the image; saving again changes nothing; no other file is changed except the thumbnail |
| Avatars.SameImageSameName | backend/services/avatar_service.go:107-109 | identical content with the same extension gets one stored name; this follows directly from StoredName being a function of the digest and the extension |
| Avatars.AvatarLibrary.SelectAndSaveAvatar | backend/services/avatar_service.go:63-138 | the guards, cancel and dialog and read errors each return without writing; a read image is stored under its content name, unless that name exists, with an optional thumbnail |
| Avatars.AvatarLibrary.SaveAvatarWithCrop | backend/services/avatar_service.go:169-228 | an absolute source is stored under its content name if absent; any other source must already be in the library; then the thumbnail is written, and failing to make it is an error |
| Avatars.AvatarLibrary.DeleteAvatarFile | backend/services/avatar_service.go:321-348 | an empty or missing name is an error and deletes nothing; otherwise the avatar and its thumbnail are removed and nothing else |
| Avatars.AvatarLibrary.SetAvatarCheck | backend/services/avatar_service.go:285-300 | SetAvatar goes ahead exactly when the user ID and file name are non-empty and the file is in the library |
| Avatars.AvatarLibrary.Metadata | backend/services/avatar_service.go:351-412 | an empty name and a missing file are errors. For an existing file there is metadata exactly when the image decodes or the lower-cased extension is `.svg`; otherwise it is a decode error. Metadata carries the name, the byte size and its size label. An undecoded SVG gets format `svg`, type `image/svg+xml` and zero width and height. A decoded image gets the decoder's width, height and format, and the content type of the extension table |
| Avatars.UserIdGuard | backend/services/avatar_service.go:303-318 | SetAvatarColor and RemoveAvatar go ahead exactly when the user ID is non-empty |
| Avatars.DataUrlMime | backend/services/avatar_service.go:267-279 | ReadImageAsBase64's MIME switch: `.png`, `.webp`, `.gif` and `.svg` have their image types, anything else is `image/jpeg` |
| Avatars.MetadataContentType | backend/services/avatar_service.go:388-401 | GetImageMetadata's switch: `.png`, `.jpg`/`.jpeg`, `.webp`, `.gif` and `.svg` have their image types, anything else is `image/unknown` |
| Avatars.MimeTablesAgree | backend/services/avatar_service.go:267-281 | the data-URL table agrees with the metadata table wherever the latter knows the extension and falls back to JPEG elsewhere; it yields one of five image types |
| Avatars.ReadImageAsBase64 | backend/services/avatar_service.go:257-282 | an empty path and an unreadable file are errors; otherwise the result is exactly `data:<mime>;base64,<encoding>`, where mime is the type of the lower-cased extension. The prefix, the suffix and the length together fix it |
| Avatars.ReadImageIgnoresCase | backend/services/avatar_service.go:267 | an upper-case `.PNG` file is a PNG image |
| Avatars.StepsBounds | backend/services/avatar_service.go:418-423 | the number of divisions by 1024 places a size between consecutive powers of 1024 |
| Avatars.ExponentInRange | backend/services/avatar_service.go:414-425 | for an int64 size of at least 1024 bytes the exponent indexes a unit letter from K to E |
| Avatars.SizeLabelOf | backend/services/avatar_service.go:414-425 | formatByteSize's choice of label; SizeLabelUnit states which unit it picks and FormatByteSize's loop is proved equal to it |
| Avatars.SizeLabelUnit | backend/services/avatar_service.go:414-425 | the unit is the largest power of 1024 not above the size |
| Avatars.FormatByteSize | backend/services/avatar_service.go:414-425 | below 1024 the size is printed as plain bytes; otherwise the divide-while loop ends with the divisor and unit letter of the size |
| AvatarRouting.ThumbRouteUsesServiceName | backend/middleware/avatar_handler.go:19-33 | `/avatar-thumb/<f>` looks for the same name getThumbnailFilename gives f, serving it or answering 404 |
| AvatarRouting.ThumbRequestsNeverFallThrough | backend/middleware/avatar_handler.go:19-33 | a thumbnail request is served a thumbnail name or answered 404, and never passed on |
| AvatarRouting.FullRoute | backend/middleware/avatar_handler.go:36-45 | `/avatar-full/<f>` serves f when it exists and otherwise passes the request on |
| AvatarRouting.Route | backend/middleware/avatar_handler.go:19-48 | the handler tests the thumbnail prefix first and never passes such a request on; only names in the set of present files are served; a path with neither prefix goes to the next handler. Present means present in the abstract name set, because filepath.Join's path cleaning is not modelled |
| AvatarUrls.BeforeQuery | frontend/src/components/modals/CustomizeAvatarModal/avatarUtils.js:21 | `split('?')[0]` is the longest prefix without a `?` |
| AvatarUrls.BeforeQueryOfJoin | frontend/src/components/modals/CustomizeAvatarModal/avatarUtils.js:21 | text without `?` followed by a query (or nothing) splits back to that text |
| AvatarUrls.BaseFilename | frontend/src/components/modals/CustomizeAvatarModal/avatarUtils.js:19-22 | falsy input comes back unchanged; otherwise the result is exactly the text before the first `?` (BeforeQuery), a `?`-free prefix of the input |
| AvatarUrls.BaseFilenameIdempotent | frontend/src/components/modals/CustomizeAvatarModal/avatarUtils.js:19-22 | getBaseFilename applied twice is getBaseFilename applied once |
| AvatarUrls.ThumbnailUrl | frontend/src/components/modals/CustomizeAvatarModal/avatarUtils.js:27-31 | null exactly for a falsy filename; otherwise `/avatar-thumb/`, the base name, and `?v=<n>` only when cacheBust is truthy |
| AvatarUrls.FullUrl | frontend/src/components/modals/CustomizeAvatarModal/avatarUtils.js:36-40 | null exactly for a falsy filename; otherwise `/avatar-full/`, the base name, and `?v=<n>` only when cacheBust is truthy |
| AvatarUrls.OnlyCacheBustQuery | frontend/src/components/modals/CustomizeAvatarModal/avatarUtils.js:29-30 | the only `?` in a built URL is the cache-bust one, right after the base name; a query on the input never survives |
| AvatarUrls.ThumbnailUrlReachesThumbnail | frontend/src/components/modals/CustomizeAvatarModal/avatarUtils.js:27-31 | the path of a thumbnail URL the front end builds is answered by the middleware with the thumbnail the avatar service writes, or a 404 |
| AvatarUrls.BorderPreference | frontend/src/components/modals/CustomizeAvatarModal/avatarUtils.js:56-59 | the border is shown when nothing is stored, and otherwise exactly when the stored text is `true` |

## Left out

- JSON encoding and decoding: a store file is seen through its decoding (`StoreFiles.StoredFile`). A file that does not decode as a list loads as the empty list, as `LoadSessions`/`Load` return the zero slice when Unmarshal fails. Partial decodes are not modelled.
- Read, write and MkdirAll failures of the store files and the avatar directory: every write succeeds in the model, and the wrapped error texts are not kept (the inner error stands for the wrapped one).
- MD5, hex and base64 are function parameters (`digest`, `encode`), not implementations.
- The clock: timestamps are opaque parameters. `Sessions.SessionStore.AddOrUpdate` takes the two clock reads of a new record as `now` and `later`.
- LogReader.SyncUsernames: one `now` is used for every filled session, where the source reads the clock once per filled session.
- The log glob, the sort by modification time and `defer Close`: log files arrive as an already ordered sequence, and a file that fails to open is `None`. bufio's 64 KiB line limit is not modelled.
- Process control in SwitchAccount (taskkill/tasklist polling, sleeps, relaunch) and `MoveAsideActiveSession`: external processes and timing. Only the session-file content is kept, for the round trip.
- Path resolution of the launcher's INI file and Data folder (OS and environment lookups): the model takes what was found (`Auth.Located`).
- `filepath.Join` cleaning: avatar files are keyed by their name relative to the avatar directory.
- FilePaths.IsAbs: covers the drive-letter form `C:\` and the UNC form `\\` of Windows absolute paths, not every form Go accepts.
- Stat errors other than a missing file: the library map only knows present and absent files. Avatars.AvatarLibrary.Metadata reports any missing file as the stat error. SelectAndSaveAvatar (avatar_service.go:113) and SaveAvatarWithCrop (avatar_service.go:193) treat a destination whose Stat fails for another reason as already saved; SaveAvatarWithCrop (avatar_service.go:207) also reads a library source whose Stat fails so; SetAvatar (avatar_service.go:295) and DeleteAvatarFile (avatar_service.go:330) go ahead on such an error; the model cannot represent that state. Open and read failures after a successful stat are not modelled.
- Avatars.AvatarLibrary.Metadata: requires the file size to fit in an int64, the type of Go's file sizes.
- Avatars.FormatByteSize: the `%.1f` rendering of the quotient is floating point. The label keeps the divisor and the unit letter instead of the printed text.
- Image decoding, cropping, resizing and thumbnail generation (`imaging`, `image.DecodeConfig`): their results are parameters. The thumbnail size constant is therefore unused.
- `UpdateAvatarImage`, `UpdateAvatarColor` and `GetAvatarDir` are not part of this model: they are called on the session store but are not in its file. SelectAndSaveAvatar, SaveAvatarWithCrop, SetAvatar, SetAvatarColor and RemoveAvatar are modelled up to that call; so SetAvatar, SetAvatarColor and RemoveAvatar become their guards (`SetAvatarCheck`, `UserIdGuard`).
- `SelectImage` (a file dialog only) and the dialog itself: the dialog's result is a parameter (`Avatars.Dialog`).
- The Wails context and bindings: the context is a boolean argument of SelectAndSaveAvatar.
- HTTP details of the avatar middleware (`http.ServeFile` headers, percent-decoding of paths, `#` fragments): a response is a choice between serving a named file, 404 and the next handler.
- `getFirstVisibleChar` (Intl grapheme segmentation and the Emoji property) and `saveBorderPreference`/localStorage writes: the stored preference is a parameter of `BorderPreference`.
- JavaScript arguments other than strings, null and undefined: a filename is `Option<string>`, and `cacheBust` (a counter starting at 0, incremented after each crop or upload) is `Option<nat>`.
- Strings.ToLower: lower-cases ASCII letters only. Go's strings.ToLower also maps a few non-ASCII characters to ASCII letters, e.g. U+0130 to `i` and U+212A (Kelvin sign) to `k`. In the model an extension spelt with them (`.GİF`) does not match the tables, so it falls back to the default type (`image/jpeg` in the data URL, `image/unknown` in the metadata), where Go would find `image/gif`.
- Avatars.GetAvailableAvatars: a readable directory with no kept entries gives `Ok([])`, where Go returns a nil slice that JSON encodes as `null`; the gallery front end reads both as an empty list (`avatars || []`).
- Invalid UTF-8 in Go strings: model strings are sequences of Unicode scalar values.
- Auth.DetectNewLoginSession: calls `CheckIfSessionIsNew`, where the source repeats the same two checks inline. Auth.CheckAndRenewLoginToken: delegates its loop to `RenewStoredToken`.
