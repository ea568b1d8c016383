// backend/services/ignore_store.go: the JSON list of user IDs never to prompt about.

module Ignores {
  import opened StoreFiles

  /** The list Add leaves: unchanged when the ID is there, else the ID appended. */
  function Added(list: seq<string>, userId: string): seq<string> {
    if userId in list then list else list + [userId]
  }

  predicate NoDuplicates(list: seq<string>) {
    forall i, j :: 0 <= i < j < |list| ==> list[i] != list[j]
  }

  /** Adding an ID twice is adding it once. */
  lemma AddIdempotent(list: seq<string>, userId: string)
    ensures Added(Added(list, userId), userId) == Added(list, userId)
  {
  }

  /** Add keeps every earlier ID, in order, and the list free of duplicates. */
  lemma AddKeepsOrderAndUniqueness(list: seq<string>, userId: string)
    ensures var r := Added(list, userId);
      |r| >= |list| && r[..|list|] == list && userId in r
      && (userId !in list ==> r == list + [userId])
      && (NoDuplicates(list) ==> NoDuplicates(r))
  {
  }

  /** The ignore store: one JSON file holding an array of user IDs. */
  class IgnoreListStore {
    var file: StoredFile<string>

    constructor (initial: StoredFile<string>)
      ensures file == initial
    {
      file := initial;
    }

    /** The IDs a load of the file returns. */
    function List(): seq<string>
      reads this
    {
      Contents(file)
    }

    method EnsureFile()
      modifies this
      ensures file == Ensured(old(file))
    {
      if file == Missing {
        file := Holds([]);
      }
    }

    /** Load: ensure the file, then decode it; a missing file reads as the empty list. */
    method Load() returns (list: seq<string>)
      modifies this
      ensures file == Ensured(old(file))
      ensures list == old(List()) && list == List()
    {
      EnsureFile();
      list := if file.Holds? then file.items else [];
    }

    method Save(list: seq<string>)
      modifies this
      ensures file == Holds(list)
    {
      file := Holds(list);
    }

    /** Add: an ID already in the list returns without saving; a new one is appended and saved. */
    method Add(userId: string)
      modifies this
      ensures userId in old(List()) ==> file == old(file)
      ensures userId !in old(List()) ==> file == Holds(Added(old(List()), userId))
      ensures List() == Added(old(List()), userId)
    {
      var list := Load();
      var i := 0;
      while i < |list|
        invariant 0 <= i <= |list|
        invariant forall j :: 0 <= j < i ==> list[j] != userId
      {
        if list[i] == userId {
          return;
        }
        i := i + 1;
      }
      list := list + [userId];
      Save(list);
    }

    /** IsIgnored: whether the loaded list holds the ID. */
    method IsIgnored(userId: string) returns (ignored: bool)
      modifies this
      ensures ignored <==> userId in old(List())
      ensures file == Ensured(old(file))
    {
      var list := Load();
      var i := 0;
      while i < |list|
        invariant 0 <= i <= |list|
        invariant forall j :: 0 <= j < i ==> list[j] != userId
      {
        if list[i] == userId {
          return true;
        }
        i := i + 1;
      }
      return false;
    }
  }

  /** After Add(u), IsIgnored(u) answers true, whatever the file held before. */
  method AddThenIsIgnored(store: IgnoreListStore, userId: string) returns (ignored: bool)
    modifies store
    ensures ignored
  {
    store.Add(userId);
    ignored := store.IsIgnored(userId);
  }
}
