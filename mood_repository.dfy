/** The mood repository: a `CrudRepository<Mood, String>` over the in-memory
    map backend, keyed by each record's `user`. The pure part states the
    backend's find/save semantics on map values; the class `MoodRepository`
    is the shared mutable store the service holds. */
module MoodStore {
  import opened Optional
  import opened MoodRecord

  /** The contents of the keyspace "moods": user identifier to record. */
  type Store = map<string, Mood>

  /** The store invariant: every entry sits under its own record's key. */
  ghost predicate Keyed(s: Store)
  {
    forall u :: u in s ==> Key(s[u]) == u
  }

  /** `findById`: the record stored for `user`, or absent. */
  function Find(s: Store, user: string): (r: Option<Mood>)
    ensures Keyed(s) && r.Some? ==> Key(r.value) == user
  {
    if user in s then Some(s[user]) else None
  }

  /** `save`: insert or replace the entry under the record's key. */
  function Put(s: Store, m: Mood): (r: Store)
    ensures r.Keys == s.Keys + {Key(m)}
    ensures Keyed(s) ==> Keyed(r)
  {
    s[Key(m) := m]
  }

  /** The users a sequence of saves writes. */
  function SavedUsers(saves: seq<Mood>): set<string>
  {
    set m | m in saves :: Key(m)
  }

  /** The store after the saves `saves`, in order, starting from `s`. */
  function Replay(s: Store, saves: seq<Mood>): (r: Store)
    ensures Keyed(s) ==> Keyed(r)
    ensures r.Keys == s.Keys + SavedUsers(saves)
    decreases |saves|
  {
    if saves == [] then s
    else
      var prefix, last := saves[..|saves| - 1], saves[|saves| - 1];
      assert saves == prefix + [last];
      assert SavedUsers(saves) == SavedUsers(prefix) + {Key(last)};
      Put(Replay(s, prefix), last)
  }

  /** Reference: the saves for `user`, in the order they were made. */
  function SavesFor(saves: seq<Mood>, user: string): (r: seq<Mood>)
    ensures forall i :: 0 <= i < |r| ==> Key(r[i]) == user
    ensures |r| <= |saves|
  {
    if saves == [] then []
    else (if Key(saves[0]) == user then [saves[0]] else []) + SavesFor(saves[1..], user)
  }

  /** Reference: the last record saved for `user`, if any. */
  function LastSaved(saves: seq<Mood>, user: string): Option<Mood>
  {
    var w := SavesFor(saves, user);
    if w == [] then None else Some(w[|w| - 1])
  }

  /** One more save extends the saves for `user` by itself when it is for
      `user`, and leaves them as they were otherwise. */
  lemma {:induction false} SavesForSnoc(saves: seq<Mood>, m: Mood, user: string)
    ensures SavesFor(saves + [m], user)
         == SavesFor(saves, user) + (if Key(m) == user then [m] else [])
  {
    if saves == [] {
      assert saves + [m] == [m];
    } else {
      assert (saves + [m])[1..] == saves[1..] + [m];
      SavesForSnoc(saves[1..], m, user);
    }
  }

  /** There is no save for `user` exactly when no record in `saves` has key `user`. */
  lemma {:induction false} SavesForEmpty(saves: seq<Mood>, user: string)
    ensures SavesFor(saves, user) == [] <==> user !in SavedUsers(saves)
  {
    if saves != [] {
      SavesForEmpty(saves[1..], user);
      assert saves == [saves[0]] + saves[1..];
      assert SavedUsers(saves) == {Key(saves[0])} + SavedUsers(saves[1..]);
    }
  }

  /** Last write wins over any history: after the saves, `findById(user)` gives
      the last record saved for `user`, or what was there before if none was. */
  lemma {:induction false} ReplayFind(s: Store, saves: seq<Mood>, user: string)
    ensures Find(Replay(s, saves), user)
         == if LastSaved(saves, user).None? then Find(s, user) else LastSaved(saves, user)
  {
    if saves != [] {
      var prefix, last := saves[..|saves| - 1], saves[|saves| - 1];
      assert saves == prefix + [last];
      SavesForSnoc(prefix, last, user);
      ReplayFind(s, prefix, user);
    }
  }

  /** On a fresh repository, `findById` after the saves gives the last record
      saved for the user; it is absent exactly when the user was never saved. */
  lemma FindAfterSaves(saves: seq<Mood>, user: string)
    ensures Find(Replay(map[], saves), user) == LastSaved(saves, user)
    ensures Find(Replay(map[], saves), user) == None <==> user !in SavedUsers(saves)
  {
    ReplayFind(map[], saves, user);
    SavesForEmpty(saves, user);
  }

  /** After `save(m)`, `findById(m.user)` is present and equal to `m`. */
  lemma FindAfterSave(s: Store, m: Mood)
    ensures Find(Put(s, m), Key(m)) == Some(m)
  {
  }

  /** `save(m)` touches only the entry under `m`'s own key. */
  lemma SaveLeavesOtherKeys(s: Store, m: Mood, user: string)
    requires user != Key(m)
    ensures Find(Put(s, m), user) == Find(s, user)
  {
  }

  /** `save` keeps every entry under its own record's key. */
  lemma SaveKeepsKeyed(s: Store, m: Mood)
    requires Keyed(s)
    ensures Keyed(Put(s, m))
  {
  }

  /** A second save under the same key replaces the first outright. */
  lemma SaveLastWriteWins(s: Store, m1: Mood, m2: Mood)
    requires Key(m1) == Key(m2)
    ensures Put(Put(s, m1), m2) == Put(s, m2)
  {
  }

  /** Saving changes nothing exactly when the record is already the stored one;
      so saving the same record twice is the same as saving it once. */
  lemma SaveNoOpIff(s: Store, m: Mood)
    ensures Put(s, m) == s <==> Find(s, Key(m)) == Some(m)
    ensures Put(Put(s, m), m) == Put(s, m)
  {
  }

  /** The shared in-memory repository. */
  class MoodRepository {
    var moods: Store

    ghost predicate Valid()
      reads this
    {
      Keyed(moods)
    }

    /** A fresh repository holds no record. */
    constructor ()
      ensures Valid() && moods == map[]
    {
      moods := map[];
    }

    /** `findById`: reads the store and changes nothing. */
    method FindById(user: string) returns (r: Option<Mood>)
      requires Valid()
      ensures r == Find(moods, user)
      ensures r.Some? <==> user in moods
      ensures r.Some? ==> Key(r.value) == user
    {
      if user in moods {
        r := Some(moods[user]);
      } else {
        r := None;
      }
    }

    /** `save`: stores `m` under its key, replacing any previous record, and
        returns the record it stored. */
    method Save(m: Mood) returns (r: Mood)
      requires Valid()
      modifies this
      ensures Valid()
      ensures moods == Put(old(moods), m)
      ensures r == m
    {
      SaveKeepsKeyed(moods, m);
      moods := moods[Key(m) := m];
      r := m;
    }
  }
}
