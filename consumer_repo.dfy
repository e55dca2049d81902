/**
 * The consumer repository (Repositories/ConsumerRepo.cs) over a stored Consumer table.
 * The table is a keyed store: every stored consumer has a non-null `ConsumerId` and no two share one.
 */
module ConsumerRepository {
  import opened Common
  import opened ConsumerModel
  import opened StableSort

  /** The exceptions the repository's operations can raise. */
  datatype RepoError =
    | ArgumentNull          // `Create(null)`
    | NullKey               // the store cannot track an entity whose key is null
    | DuplicateKey(key: string)  // adding a key that is already stored
    | NotStored(key: string)     // updating or removing a key that no row has
    | NullReference         // the search called `Contains` on a null property

  /** The orderings `GetConsumers` can apply. */
  datatype SortOrder = IdDesc | NameDesc | DateAsc | DateDesc | NameAsc

  /** The `switch (sortOrder)`: every other value, null included, takes the default branch. */
  function ParseSortOrder(sortOrder: Option<string>): SortOrder
  {
    if sortOrder == Some("id_desc") then IdDesc
    else if sortOrder == Some("name_desc") then NameDesc
    else if sortOrder == Some("Date") then DateAsc
    else if sortOrder == Some("date_desc") then DateDesc
    else NameAsc
  }

  /** A string comparer `le` lifted to nullable strings: null sorts before every string. */
  predicate NullableLe(le: (string, string) -> bool, a: Option<string>, b: Option<string>)
  {
    a.None? || (b.Some? && le(a.value, b.value))
  }

  /** The `<=` between consumers that each ordering sorts by; descending orders flip the key comparison. */
  function KeyLe(order: SortOrder, le: (string, string) -> bool): (Consumer, Consumer) -> bool
  {
    match order
    case IdDesc => (a: Consumer, b: Consumer) => NullableLe(le, b.consumerId, a.consumerId)
    case NameDesc => (a: Consumer, b: Consumer) => NullableLe(le, b.name, a.name)
    case DateAsc => (a: Consumer, b: Consumer) => a.registrationDate <= b.registrationDate
    case DateDesc => (a: Consumer, b: Consumer) => b.registrationDate <= a.registrationDate
    case NameAsc => (a: Consumer, b: Consumer) => NullableLe(le, a.name, b.name)
  }

  lemma NullableLePreorder(le: (string, string) -> bool, a: Option<string>, b: Option<string>, c: Option<string>)
    requires TotalPreorder(le)
    ensures NullableLe(le, a, b) || NullableLe(le, b, a)
    ensures NullableLe(le, a, b) && NullableLe(le, b, c) ==> NullableLe(le, a, c)
  {
  }

  /** Every ordering is a total preorder on consumers when the string comparer is one on strings. */
  lemma {:induction false} KeyLePreorder(order: SortOrder, le: (string, string) -> bool)
    requires TotalPreorder(le)
    ensures TotalPreorder(KeyLe(order, le))
  {
    var k := KeyLe(order, le);
    forall x, y ensures k(x, y) || k(y, x) {
      NullableLePreorder(le, x.consumerId, y.consumerId, y.consumerId);
      NullableLePreorder(le, x.name, y.name, y.name);
    }
    forall x, y, z | k(x, y) && k(y, z) ensures k(x, z) {
      NullableLePreorder(le, x.consumerId, y.consumerId, z.consumerId);
      NullableLePreorder(le, z.consumerId, y.consumerId, x.consumerId);
      NullableLePreorder(le, x.name, y.name, z.name);
      NullableLePreorder(le, z.name, y.name, x.name);
    }
  }

  /** A non-null property holding `s` as an ordinal substring. */
  ghost predicate HasSubstring(field: Option<string>, s: string)
  {
    field.Some? && Contains(field.value, s)
  }

  /**
   * `c.ConsumerId.Contains(s) || c.Name.Contains(s) || c.Email.Contains(s)`, evaluated left to right
   * with short circuit; `None` when the evaluation reaches a null property and throws.
   */
  function SearchMatch(c: Consumer, s: string): (r: Option<bool>)
    ensures r.Some? ==> (r.value <==> HasSubstring(c.consumerId, s) || HasSubstring(c.name, s) || HasSubstring(c.email, s))
    ensures r.None? <==>
      || c.consumerId.None?
      || (!HasSubstring(c.consumerId, s) && (c.name.None? || (!HasSubstring(c.name, s) && c.email.None?)))
    ensures HasSubstring(c.consumerId, s) ==> r == Some(true)
  {
    if c.consumerId.None? then None
    else if Contains(c.consumerId.value, s) then Some(true)
    else if c.name.None? then None
    else if Contains(c.name.value, s) then Some(true)
    else if c.email.None? then None
    else Some(Contains(c.email.value, s))
  }

  /** The `Where(...).ToList()` of the search: the predicate is applied to every consumer, and one that throws fails the whole list. */
  function Filter(t: seq<Consumer>, s: string): (r: Result<seq<Consumer>, RepoError>)
    ensures r.Err? <==> exists c | c in t :: SearchMatch(c, s).None?
    ensures r.Err? ==> r.error == NullReference
    ensures r.Ok? ==> forall c :: multiset(r.value)[c] == if SearchMatch(c, s) == Some(true) then multiset(t)[c] else 0
    ensures r.Ok? ==> SubsequenceOf(r.value, t)
  {
    if t == [] then Ok([])
    else
      assert t == [t[0]] + t[1..];
      match (SearchMatch(t[0], s), Filter(t[1..], s))
      case (None, _) => Err(NullReference)
      case (Some(_), Err(e)) => Err(e)
      case (Some(keep), Ok(rest)) =>
        assert ([t[0]] + rest)[1..] == rest;
        Ok(if keep then [t[0]] + rest else rest)
  }

  /** The search stage of `GetConsumers`: a null or empty search string keeps every consumer. */
  function Search(t: seq<Consumer>, searchString: Option<string>): Result<seq<Consumer>, RepoError>
  {
    if IsNullOrEmpty(searchString) then Ok(t) else Filter(t, searchString.value)
  }

  /** The primary-key constraint on the Consumer table. */
  ghost predicate UniqueKeys(t: seq<Consumer>)
  {
    && (forall i | 0 <= i < |t| :: t[i].consumerId.Some?)
    && (forall i, j | 0 <= i < j < |t| :: t[i].consumerId != t[j].consumerId)
  }

  /** `ConsumerRepo`: the operations of `IConsumer` over the stored Consumer table, in table order. */
  class ConsumerRepo {
    var consumers: seq<Consumer>

    ghost predicate Valid()
      reads this
    {
      UniqueKeys(consumers)
    }

    constructor(table: seq<Consumer>)
      requires UniqueKeys(table)
      ensures Valid() && consumers == table
    {
      consumers := table;
    }

    /** `Details(id)`: the first stored consumer whose key equals `id`, or null. */
    function Details(id: Option<string>): (r: Option<Consumer>)
      reads this
      ensures r.None? <==> forall i | 0 <= i < |consumers| :: consumers[i].consumerId != id
      ensures r.Some? ==> exists i | 0 <= i < |consumers| ::
        consumers[i] == r.value && r.value.consumerId == id && forall j | 0 <= j < i :: consumers[j].consumerId != id
    {
      match FirstIndex(consumers, (c: Consumer) => c.consumerId == id)
      case None => None
      case Some(i) => Some(consumers[i])
    }

    /** `ByEmail(email)`: the first stored consumer whose `Email` equals `email`, or null. */
    function ByEmail(email: Option<string>): (r: Option<Consumer>)
      reads this
      ensures r.None? <==> forall i | 0 <= i < |consumers| :: consumers[i].email != email
      ensures r.Some? ==> exists i | 0 <= i < |consumers| ::
        consumers[i] == r.value && r.value.email == email && forall j | 0 <= j < i :: consumers[j].email != email
    {
      match FirstIndex(consumers, (c: Consumer) => c.email == email)
      case None => None
      case Some(i) => Some(consumers[i])
    }

    /** `IsExist(id)`: whether `Details(id)` finds a consumer. */
    function IsExist(id: Option<string>): (b: bool)
      reads this
      ensures b <==> exists i | 0 <= i < |consumers| :: consumers[i].consumerId == id
    {
      Details(id).Some?
    }

    /** `GetConsumers`: the search stage, then the ordering the sort key names. */
    function GetConsumers(searchString: Option<string>, sortOrder: Option<string>, le: (string, string) -> bool)
      : (r: Result<seq<Consumer>, RepoError>)
      reads this
      ensures IsNullOrEmpty(searchString) ==> r.Ok? && multiset(r.value) == multiset(consumers)
      ensures !IsNullOrEmpty(searchString) ==>
        (r.Err? <==> exists c | c in consumers :: SearchMatch(c, searchString.value).None?)
      ensures r.Err? ==> r.error == NullReference
      ensures r.Ok? && !IsNullOrEmpty(searchString) ==> forall c ::
        multiset(r.value)[c] == if SearchMatch(c, searchString.value) == Some(true) then multiset(consumers)[c] else 0
    {
      match Search(consumers, searchString)
      case Err(e) => Err(e)
      case Ok(found) => Ok(Sort(found, KeyLe(ParseSortOrder(sortOrder), le)))
    }

    /** `Create`: stamps the registration date with `now`, whatever was submitted, and adds the record. */
    method Create(consumer: Option<Consumer>, now: DateTime) returns (r: Result<Consumer, RepoError>)
      requires Valid()
      modifies this
      ensures Valid()
      ensures consumer.None? ==> r == Err(ArgumentNull) && consumers == old(consumers)
      ensures consumer.Some? ==>
        var stamped := consumer.value.(registrationDate := now);
        match stamped.consumerId
        case None => r == Err(NullKey) && consumers == old(consumers)
        case Some(key) =>
          if old(IsExist(stamped.consumerId)) then r == Err(DuplicateKey(key)) && consumers == old(consumers)
          else r == Ok(stamped) && consumers == old(consumers) + [stamped]
    {
      if consumer.None? {
        return Err(ArgumentNull);
      }
      var stamped := consumer.value.(registrationDate := now);
      if stamped.consumerId.None? {
        return Err(NullKey);
      }
      if IsExist(stamped.consumerId) {
        return Err(DuplicateKey(stamped.consumerId.value));
      }
      consumers := consumers + [stamped];
      r := Ok(stamped);
    }

    /** `Edit`: the stored record with the same key is replaced and every other record is left as it was. */
    method Edit(consumer: Consumer) returns (r: Result<Consumer, RepoError>)
      requires Valid()
      modifies this
      ensures Valid()
      ensures consumer.consumerId.None? ==> r == Err(NullKey) && consumers == old(consumers)
      ensures consumer.consumerId.Some? && !old(IsExist(consumer.consumerId)) ==>
        r == Err(NotStored(consumer.consumerId.value)) && consumers == old(consumers)
      ensures old(IsExist(consumer.consumerId)) ==>
        && r == Ok(consumer)
        && |consumers| == |old(consumers)|
        && forall i | 0 <= i < |consumers| ::
             consumers[i] == if old(consumers)[i].consumerId == consumer.consumerId then consumer else old(consumers)[i]
    {
      if consumer.consumerId.None? {
        return Err(NullKey);
      }
      if !IsExist(consumer.consumerId) {
        return Err(NotStored(consumer.consumerId.value));
      }
      consumers := seq(|consumers|, i requires 0 <= i < |consumers| reads this =>
        if consumers[i].consumerId == consumer.consumerId then consumer else consumers[i]);
      r := Ok(consumer);
    }

    /** `Delete`: removes the record with the consumer's key, then reports whether that key is gone. */
    method Delete(consumer: Consumer) returns (r: Result<bool, RepoError>)
      requires Valid()
      modifies this
      ensures Valid()
      ensures consumer.consumerId.None? ==> r == Err(NullKey) && consumers == old(consumers)
      ensures consumer.consumerId.Some? && !old(IsExist(consumer.consumerId)) ==>
        r == Err(NotStored(consumer.consumerId.value)) && consumers == old(consumers)
      ensures old(IsExist(consumer.consumerId)) ==>
        exists i | 0 <= i < |old(consumers)| ::
          old(consumers)[i].consumerId == consumer.consumerId && consumers == old(consumers)[..i] + old(consumers)[i + 1..]
      ensures r.Ok? ==> (r.value <==> !IsExist(consumer.consumerId))
      ensures old(IsExist(consumer.consumerId)) ==> r == Ok(true)
    {
      if consumer.consumerId.None? {
        return Err(NullKey);
      }
      var found := FirstIndex(consumers, (c: Consumer) => c.consumerId == consumer.consumerId);
      if found.None? {
        return Err(NotStored(consumer.consumerId.value));
      }
      var i := found.value;
      ghost var before := consumers;
      consumers := consumers[..i] + consumers[i + 1..];
      forall j | 0 <= j < |consumers| ensures consumers[j].consumerId != consumer.consumerId {
        if j < i {
          assert consumers[j] == before[j];
        } else {
          assert consumers[j] == before[j + 1];
        }
      }
      r := Ok(!IsExist(consumer.consumerId));
    }
  }

  /** The key `GetConsumers` sorts by decides the order of its result. */
  lemma {:induction false} GetConsumersOrder(repo: ConsumerRepo, searchString: Option<string>, sortOrder: Option<string>,
                                             le: (string, string) -> bool)
    requires TotalPreorder(le)
    ensures var r := repo.GetConsumers(searchString, sortOrder, le);
      r.Ok? ==>
        && (sortOrder == Some("Date") ==> forall i, j | 0 <= i < j < |r.value| ::
              r.value[i].registrationDate <= r.value[j].registrationDate)
        && (sortOrder == Some("date_desc") ==> forall i, j | 0 <= i < j < |r.value| ::
              r.value[i].registrationDate >= r.value[j].registrationDate)
        && (sortOrder == Some("id_desc") ==> forall i, j | 0 <= i < j < |r.value| ::
              NullableLe(le, r.value[j].consumerId, r.value[i].consumerId))
        && (sortOrder == Some("name_desc") ==> forall i, j | 0 <= i < j < |r.value| ::
              NullableLe(le, r.value[j].name, r.value[i].name))
        && (sortOrder !in {Some("Date"), Some("date_desc"), Some("id_desc"), Some("name_desc")} ==>
              forall i, j | 0 <= i < j < |r.value| :: NullableLe(le, r.value[i].name, r.value[j].name))
  {
    var order := ParseSortOrder(sortOrder);
    KeyLePreorder(order, le);
    var found := Search(repo.consumers, searchString);
    if found.Ok? {
      SortSorted(found.value, KeyLe(order, le));
    }
  }

  /** Consumers with equal sort keys come out in the order the search stage left them in. */
  lemma {:induction false} GetConsumersStable(repo: ConsumerRepo, searchString: Option<string>, sortOrder: Option<string>,
                                              le: (string, string) -> bool, k: Consumer)
    requires TotalPreorder(le)
    ensures var r := repo.GetConsumers(searchString, sortOrder, le);
      var order := KeyLe(ParseSortOrder(sortOrder), le);
      r.Ok? ==>
        && Search(repo.consumers, searchString).Ok?
        && TiesOf(r.value, k, order) == TiesOf(Search(repo.consumers, searchString).value, k, order)
  {
    var order := ParseSortOrder(sortOrder);
    KeyLePreorder(order, le);
    var found := Search(repo.consumers, searchString);
    if found.Ok? {
      SortStable(found.value, k, KeyLe(order, le));
    }
  }
}
