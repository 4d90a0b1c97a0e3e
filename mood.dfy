/** The mood record: one user's current mood, stored in the keyspace "moods"
    under its `user` field. Records are values; equality is field-wise. */
module MoodRecord {
  import opened Optional

  datatype Mood = Mood(user: string, mood: string)

  /** The identifier a record is stored under (the `@Id` field). */
  function Key(m: Mood): string
  {
    m.user
  }

  /** The generated builder (`user(..)`, `mood(..)`, `build()`): each
      setter records its field; a field not yet given is `None`. */
  datatype MoodBuilder = MoodBuilder(user: Option<string>, mood: Option<string>)
  {
    function WithUser(u: string): MoodBuilder
    {
      this.(user := Some(u))
    }

    function WithMood(m: string): MoodBuilder
    {
      this.(mood := Some(m))
    }

    /** Builds the record from the fields given so far. */
    function Build(): Mood
      requires user.Some? && mood.Some?
    {
      Mood(user.value, mood.value)
    }
  }

  /** A builder with no field given yet. */
  function Builder(): MoodBuilder
  {
    MoodBuilder(None, None)
  }

  /** The all-arguments constructor keeps both arguments verbatim, and the
      record's key is its `user`. The first part holds of every Dafny datatype
      constructor: it records that the model represents the record as a
      datatype, and proves nothing further about it. */
  lemma ConstructorKeepsFields(u: string, m: string)
    ensures Mood(u, m).user == u && Mood(u, m).mood == m
    ensures Key(Mood(u, m)) == u
  {
  }

  /** The builder chain yields the same record as the constructor, in
      either order of the setters, and a later setter replaces an earlier one. */
  lemma BuilderMatchesConstructor(u: string, m: string, u0: string, m0: string)
    ensures Builder().WithUser(u).WithMood(m).Build() == Mood(u, m)
    ensures Builder().WithMood(m).WithUser(u).Build() == Mood(u, m)
    ensures Builder().WithUser(u0).WithMood(m0).WithUser(u).WithMood(m).Build() == Mood(u, m)
  {
  }

  /** Field-wise equality, in both directions. This holds of every Dafny
      datatype with these two fields: it records that the model represents
      the record as a datatype, and proves nothing further about it. */
  lemma EqualityIsFieldWise(a: Mood, b: Mood)
    ensures a == b <==> a.user == b.user && a.mood == b.mood
  {
  }
}
