/** The mood service: `getMood` looks the user up and fails with the
    configured "not set" message when there is no record; `setMood` builds a
    fresh record and saves it, unconditionally. The failure is a tagged
    outcome rather than a thrown `MoodNotSetException`. */
module Service {
  import opened Optional
  import opened MoodRecord
  import opened MoodStore

  /** The "mood not set" failure, carrying the configured message. */
  datatype MoodNotSet = MoodNotSet(message: string)

  /** What `getMood` gives back: the stored record, or the failure. */
  datatype GetOutcome = Found(mood: Mood) | NotSet(error: MoodNotSet)

  /** `getMood(user)` on the store `s` with the not-found message `message`. */
  function Read(s: Store, message: string, user: string): (r: GetOutcome)
    ensures r.NotSet? ==> r.error.message == message
    ensures Keyed(s) && r.Found? ==> Key(r.mood) == user
  {
    match Find(s, user)
    case None => NotSet(MoodNotSet(message))
    case Some(m) => Found(m)
  }

  /** The store after `setMood(user, mood)` on `s`. */
  function Write(s: Store, user: string, mood: string): (r: Store)
    ensures r.Keys == s.Keys + {user}
    ensures Keyed(s) ==> Keyed(r)
  {
    Put(s, Builder().WithUser(user).WithMood(mood).Build())
  }

  /** `getMood` fails, with exactly the configured message, when and only when
      the store has no record for the user; otherwise it returns that record
      unchanged, and on a keyed store the record is the user's own. */
  lemma ReadOutcome(s: Store, message: string, user: string)
    ensures Read(s, message, user) == NotSet(MoodNotSet(message)) <==> user !in s
    ensures Read(s, message, user).Found? <==> user in s
    ensures user in s ==> Read(s, message, user) == Found(s[user])
    ensures Keyed(s) && user in s ==> Key(Read(s, message, user).mood) == user
  {
  }

  /** `setMood(u, m)` stores the record `{u, m}` verbatim, whatever `m` is
      (the empty string included), and so `getMood(u)` then returns it. */
  lemma ReadAfterWrite(s: Store, message: string, user: string, mood: string)
    ensures Find(Write(s, user, mood), user) == Some(Mood(user, mood))
    ensures Read(Write(s, user, mood), message, user) == Found(Mood(user, mood))
  {
  }

  /** `setMood(u, m)` leaves every other user's outcome as it was. */
  lemma WriteLeavesOtherUsers(s: Store, message: string, user: string, mood: string, other: string)
    requires other != user
    ensures Read(Write(s, user, mood), message, other) == Read(s, message, other)
  {
  }

  /** No existence check: a later `setMood(u, m2)` replaces an earlier
      `setMood(u, m1)` outright, and repeating `setMood(u, m)` changes nothing. */
  lemma WriteLastWins(s: Store, user: string, m1: string, m2: string)
    ensures Write(Write(s, user, m1), user, m2) == Write(s, user, m2)
    ensures Write(Write(s, user, m2), user, m2) == Write(s, user, m2)
  {
  }

  /** A `setMood(u, m)` call is the one-save history `[{u, m}]`, so the store
      after successive `setMood` calls is the replay of the records they built. */
  lemma WriteIsReplay(s: Store, user: string, mood: string)
    ensures Write(s, user, mood) == Replay(s, [Mood(user, mood)])
    ensures forall h: seq<Mood> {:trigger Replay(s, h)} ::
      Write(Replay(s, h), user, mood) == Replay(s, h + [Mood(user, mood)])
  {
    forall h: seq<Mood>
      ensures Write(Replay(s, h), user, mood) == Replay(s, h + [Mood(user, mood)])
    {
      assert (h + [Mood(user, mood)])[..|h|] == h;
    }
  }

  /** After any history of `setMood` calls (the records they built, in order)
      on a fresh store, `getMood(u)` is "not set" exactly when `u` was never
      written, and otherwise returns the last record written for `u`. */
  lemma ReadAfterHistory(history: seq<Mood>, message: string, user: string)
    ensures Read(Replay(map[], history), message, user)
         == match LastSaved(history, user)
            case None => NotSet(MoodNotSet(message))
            case Some(m) => Found(m)
    ensures Read(Replay(map[], history), message, user).NotSet? <==> user !in SavedUsers(history)
  {
    FindAfterSaves(history, user);
  }

  class MoodService {
    const moodNotFoundMessage: string
    const moodRepository: MoodRepository

    /** The repository is injected; the message is the configured value. */
    constructor (moodRepository: MoodRepository, moodNotFoundMessage: string)
      ensures this.moodRepository == moodRepository
      ensures this.moodNotFoundMessage == moodNotFoundMessage
    {
      this.moodRepository := moodRepository;
      this.moodNotFoundMessage := moodNotFoundMessage;
    }

    /** `getMood`: a lookup that changes nothing. */
    method GetMood(user: string) returns (r: GetOutcome)
      requires moodRepository.Valid()
      ensures r == Read(moodRepository.moods, moodNotFoundMessage, user)
      ensures r.NotSet? <==> user !in moodRepository.moods
      ensures r.Found? ==> Key(r.mood) == user
    {
      var mood := moodRepository.FindById(user);
      if mood.None? {
        return NotSet(MoodNotSet(moodNotFoundMessage));
      }
      return Found(mood.value);
    }

    /** `setMood`: saves `{user, mood}` with no check, and returns what the
        repository's `save` returned. */
    method SetMood(user: string, mood: string) returns (r: Mood)
      requires moodRepository.Valid()
      modifies moodRepository
      ensures moodRepository.Valid()
      ensures moodRepository.moods == Write(old(moodRepository.moods), user, mood)
      ensures r == Mood(user, mood)
    {
      r := moodRepository.Save(Builder().WithUser(user).WithMood(mood).Build());
    }
  }

  /** A caller of the class, at service level, of the repository test's
      scenario: before any write the user's mood is not set; after `setMood`
      it reads back as written. */
  method SetThenGetScenario(message: string)
  {
    var repository := new MoodRepository();
    var service := new MoodService(repository, message);
    var before := service.GetMood("stehrn");
    assert before == NotSet(MoodNotSet(message));
    var saved := service.SetMood("stehrn", "happy");
    assert saved == Mood("stehrn", "happy");
    var after := service.GetMood("stehrn");
    assert after == Found(Mood("stehrn", "happy"));
  }

  /** Two users' moods do not interfere; a second write to one user wins, and
      the empty mood round-trips. */
  method IndependentUsersScenario(message: string)
  {
    var repository := new MoodRepository();
    var service := new MoodService(repository, message);
    var _ := service.SetMood("a", "sad");
    var _ := service.SetMood("b", "joyful");
    var a := service.GetMood("a");
    var b := service.GetMood("b");
    assert a == Found(Mood("a", "sad"));
    assert b == Found(Mood("b", "joyful"));
    var _ := service.SetMood("a", "");
    a := service.GetMood("a");
    b := service.GetMood("b");
    assert a == Found(Mood("a", ""));
    assert b == Found(Mood("b", "joyful"));
  }
}
