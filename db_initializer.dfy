/**
 * Seeding the database on start-up (Repositories/DBInitializerRepo.cs). The store is keyed: it
 * refuses to track a record whose key is null or already taken, and then nothing of the run is
 * saved, because the single save at the end is never reached.
 */
module DbInitializer {
  import opened Common
  import opened ConsumerModel
  import opened StudentModel
  import opened ConsumerRepository

  /** How `Initialize` ends; a refused record fails with `NullKey` or `DuplicateKey`, as in the repository. */
  datatype InitOutcome = AlreadySeeded | Seeded | Failed(error: RepoError)

  function StudentKey(s: Student): Option<string> { s.studentNumber }

  /** The primary key of the Consumers table. */
  function ConsumerKey(c: Consumer): Option<string> { c.consumerId }

  /** Some record of `tracked` has key `k`. */
  predicate KeyTaken<T>(tracked: seq<T>, key: T -> Option<string>, k: Option<string>)
  {
    exists i | 0 <= i < |tracked| :: key(tracked[i]) == k
  }

  /** Keys are present and pairwise different. */
  ghost predicate DistinctKeys<T>(t: seq<T>, key: T -> Option<string>)
  {
    && (forall i | 0 <= i < |t| :: key(t[i]).Some?)
    && (forall i, j | 0 <= i < j < |t| :: key(t[i]) != key(t[j]))
  }

  /** Keyed by `ConsumerKey`, this is the key constraint that the consumer repository keeps. */
  lemma UniqueKeysAgree(t: seq<Consumer>)
    ensures UniqueKeys(t) <==> DistinctKeys(t, ConsumerKey)
  {
  }

  /** Adds the seeds one at a time to the records already in the table, as the `foreach` loops do. */
  function AddAll<T>(tracked: seq<T>, seeds: seq<T>, key: T -> Option<string>): Result<seq<T>, RepoError>
    decreases |seeds|
  {
    if seeds == [] then Ok(tracked)
    else if key(seeds[0]).None? then Err(NullKey)
    else if KeyTaken(tracked, key, key(seeds[0])) then Err(DuplicateKey(key(seeds[0]).value))
    else AddAll(tracked + [seeds[0]], seeds[1..], key)
  }

  /** Adding succeeds exactly when the keys stay distinct, and then appends every seed in order. */
  lemma {:induction false} AddAllIff<T>(tracked: seq<T>, seeds: seq<T>, key: T -> Option<string>)
    requires DistinctKeys(tracked, key)
    ensures AddAll(tracked, seeds, key).Ok? <==> DistinctKeys(tracked + seeds, key)
    ensures AddAll(tracked, seeds, key).Ok? ==> AddAll(tracked, seeds, key).value == tracked + seeds
    decreases |seeds|
  {
    if seeds == [] {
      assert tracked + seeds == tracked;
    } else {
      var t := tracked + seeds;
      var n := |tracked|;
      assert t[n] == seeds[0];
      if key(seeds[0]).None? {
      } else if KeyTaken(tracked, key, key(seeds[0])) {
        var i :| 0 <= i < n && key(tracked[i]) == key(seeds[0]);
        assert t[i] == tracked[i];
      } else {
        var next := tracked + [seeds[0]];
        assert DistinctKeys(next, key);
        AddAllIff(next, seeds[1..], key);
        assert next + seeds[1..] == t;
      }
    }
  }

  /** What `Initialize` leaves behind: its outcome, then the Students and Consumers tables. */
  function Initialized(students: seq<Student>, consumers: seq<Consumer>,
                       seedStudents: seq<Student>, seedConsumers: seq<Consumer>): (InitOutcome, seq<Student>, seq<Consumer>)
  {
    if students != [] then (AlreadySeeded, students, consumers)
    else match AddAll(students, seedStudents, StudentKey)
      case Err(e) => (Failed(e), students, consumers)
      case Ok(s) =>
        match AddAll(consumers, seedConsumers, ConsumerKey)
        case Err(e) => (Failed(e), students, consumers)
        case Ok(c) => (Seeded, s, c)
  }

  /** The three students the initializer seeds. */
  function SeedStudents(): seq<Student>
  {
    [ Student(Some("2021000001"), Some("Alexander"), Some("May"), Day(2021, 2, 3),
              Some("DefaultPic.png"), Some("DefaultEmail@gmail.com")),
      Student(Some("2012000002"), Some("Meredith"), Some("Alonso"), Day(2021, 2, 1),
              Some("DefaultPic.png"), Some("DefaultEmail@gmail.com")),
      Student(Some("2021000003"), Some("Arturo"), Some("Anand"), Day(2021, 2, 4),
              Some("DefaultPic.png"), Some("DefaultEmail@gmail.com")) ]
  }

  /** The three consumers as the initializer lists them: the first two share the key "90909". */
  function AsWrittenSeedConsumers(): seq<Consumer>
  {
    [ Consumer(Some("90909"), Some("tshego"), Some("tshego@example.com"), Some("66 kerk st"),
               Some("0795547786"), Day(2021, 2, 3), Some("DefaultPic.png")),
      Consumer(Some("90909"), Some("Misper"), Some("misper@example.com"), Some("45 Oaktree village"),
               Some("0795547786"), Day(2021, 2, 1), Some("DefaultPic.png")),
      Consumer(Some("77777"), Some("nadio"), Some("nadio@example.com"), Some("789 parkhof willows"),
               Some("0795547786"), Day(2021, 2, 4), Some("DefaultPic.png")) ]
  }

  /** The same three consumers with the second given a key of its own. */
  function CorrectedSeedConsumers(): seq<Consumer>
  {
    AsWrittenSeedConsumers()[1 := AsWrittenSeedConsumers()[1].(consumerId := Some("90910"))]
  }

  /** The Students and Consumers tables of the application's database. */
  class Database {
    var students: seq<Student>
    var consumers: seq<Consumer>

    constructor(students: seq<Student>, consumers: seq<Consumer>)
      ensures this.students == students && this.consumers == consumers
    {
      this.students := students;
      this.consumers := consumers;
    }

    /**
     * `Initialize`: nothing to do once Students holds a record; otherwise track every seed
     * student, then every seed consumer, and save both tables at the end.
     */
    method Initialize(seedStudents: seq<Student>, seedConsumers: seq<Consumer>) returns (outcome: InitOutcome)
      modifies this
      ensures (outcome, students, consumers) == Initialized(old(students), old(consumers), seedStudents, seedConsumers)
      ensures old(students) != [] ==> outcome == AlreadySeeded
      ensures outcome != Seeded ==> students == old(students) && consumers == old(consumers)
    {
      if students != [] {
        return AlreadySeeded;
      }
      var trackedStudents := students;
      var i := 0;
      while i < |seedStudents|
        invariant 0 <= i <= |seedStudents|
        invariant AddAll(students, seedStudents, StudentKey) == AddAll(trackedStudents, seedStudents[i..], StudentKey)
      {
        var s := seedStudents[i];
        assert seedStudents[i..][0] == s && seedStudents[i..][1..] == seedStudents[i + 1..];
        if s.studentNumber.None? {
          return Failed(NullKey);
        }
        if KeyTaken(trackedStudents, StudentKey, s.studentNumber) {
          return Failed(DuplicateKey(s.studentNumber.value));
        }
        trackedStudents := trackedStudents + [s];
        i := i + 1;
      }
      var trackedConsumers := consumers;
      var j := 0;
      while j < |seedConsumers|
        invariant 0 <= j <= |seedConsumers|
        invariant AddAll(consumers, seedConsumers, ConsumerKey) == AddAll(trackedConsumers, seedConsumers[j..], ConsumerKey)
      {
        var c := seedConsumers[j];
        assert seedConsumers[j..][0] == c && seedConsumers[j..][1..] == seedConsumers[j + 1..];
        if c.consumerId.None? {
          return Failed(NullKey);
        }
        if KeyTaken(trackedConsumers, ConsumerKey, c.consumerId) {
          return Failed(DuplicateKey(c.consumerId.value));
        }
        trackedConsumers := trackedConsumers + [c];
        j := j + 1;
      }
      students, consumers := trackedStudents, trackedConsumers;
      outcome := Seeded;
    }
  }

  /** The seed students have distinct student numbers, so tracking them on an empty table appends them all. */
  lemma SeedStudentsTracked()
    ensures AddAll([], SeedStudents(), StudentKey) == Ok(SeedStudents())
  {
    var ss := SeedStudents();
    var k0, k1, k2 := ss[0].studentNumber.value, ss[1].studentNumber.value, ss[2].studentNumber.value;
    forall i, j | 0 <= i < j < |ss| ensures StudentKey(ss[i]) != StudentKey(ss[j]) {
      if j == 1 {
        assert k0[3] != k1[3];
      } else if i == 0 {
        assert k0[9] != k2[9];
      } else {
        assert k1[9] != k2[9];
      }
    }
    assert DistinctKeys(ss, StudentKey);
    assert [] + ss == ss;
    AddAllIff([], ss, StudentKey);
  }

  /** As written, seeding can never succeed: whatever Consumers holds, the second "90909" is refused. */
  lemma {:induction false} AsWrittenSeedNeverApplies(consumers: seq<Consumer>)
    ensures Initialized([], consumers, SeedStudents(), AsWrittenSeedConsumers())
         == (Failed(DuplicateKey("90909")), [], consumers)
  {
    SeedStudentsTracked();
    var cs := AsWrittenSeedConsumers();
    var key := Some("90909");
    assert ConsumerKey(cs[0]) == key && ConsumerKey(cs[1]) == key;
    if KeyTaken(consumers, ConsumerKey, key) {
      assert AddAll(consumers, cs, ConsumerKey) == Err(DuplicateKey("90909"));
    } else {
      var next := consumers + [cs[0]];
      assert AddAll(consumers, cs, ConsumerKey) == AddAll(next, cs[1..], ConsumerKey);
      assert ConsumerKey(next[|consumers|]) == key;
      assert KeyTaken(next, ConsumerKey, key);
      assert cs[1..][0] == cs[1];
      assert AddAll(next, cs[1..], ConsumerKey) == Err(DuplicateKey("90909"));
    }
  }

  /** The corrected seed keys are distinct from each other and from every key they are added to. */
  lemma CorrectedKeysDistinct(consumers: seq<Consumer>)
    requires DistinctKeys(consumers, ConsumerKey)
    requires forall c | c in consumers :: c.consumerId !in {Some("90909"), Some("90910"), Some("77777")}
    ensures DistinctKeys(consumers + CorrectedSeedConsumers(), ConsumerKey)
  {
    var cs := CorrectedSeedConsumers();
    var k0, k1, k2 := cs[0].consumerId.value, cs[1].consumerId.value, cs[2].consumerId.value;
    assert k0 == "90909" && k1 == "90910" && k2 == "77777";
    assert k0[4] != k1[4] && k0[0] != k2[0] && k1[0] != k2[0];
    assert DistinctKeys(cs, ConsumerKey);
    var all := consumers + cs;
    var n := |consumers|;
    forall i, j | 0 <= i < j < |all| ensures ConsumerKey(all[i]) != ConsumerKey(all[j]) {
      if j >= n && i < n {
        assert all[i] in consumers;
        assert all[j] == cs[j - n];
      } else if i >= n {
        assert all[i] == cs[i - n] && all[j] == cs[j - n];
      }
    }
  }

  /**
   * With distinct keys the seed applies: when Students is empty and no stored consumer uses a
   * seed key, exactly the three students and then the three consumers are appended in order.
   */
  lemma {:induction false} CorrectedSeedApplies(consumers: seq<Consumer>)
    requires DistinctKeys(consumers, ConsumerKey)
    requires forall c | c in consumers :: c.consumerId !in {Some("90909"), Some("90910"), Some("77777")}
    ensures Initialized([], consumers, SeedStudents(), CorrectedSeedConsumers())
         == (Seeded, SeedStudents(), consumers + CorrectedSeedConsumers())
  {
    SeedStudentsTracked();
    CorrectedKeysDistinct(consumers);
    AddAllIff(consumers, CorrectedSeedConsumers(), ConsumerKey);
  }

  /** Once a run has seeded at least one student, every later run leaves both tables alone. */
  lemma {:induction false} SecondRunIsNoOp(students: seq<Student>, consumers: seq<Consumer>,
                                           seedStudents: seq<Student>, seedConsumers: seq<Consumer>)
    requires seedStudents != []
    requires Initialized(students, consumers, seedStudents, seedConsumers).0 == Seeded
    ensures var (_, s, c) := Initialized(students, consumers, seedStudents, seedConsumers);
      Initialized(s, c, seedStudents, seedConsumers) == (AlreadySeeded, s, c)
  {
    assert DistinctKeys(students, StudentKey);
    AddAllIff(students, seedStudents, StudentKey);
    assert |students + seedStudents| > 0;
  }
}
