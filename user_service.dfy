/**
 * The in-memory user table of examples/example.go: a `UserService` owning a map
 * from user ID to user. Users are only ever inserted, with ID `len + 1`, so when
 * operations run one at a time the keys of a service are always exactly 1..n.
 * Each operation is modelled as one indivisible step; the Go map has no lock.
 */
module UserService {
  import opened Results

  /** A user record; the Go map holds `*User`, modelled here by the record's value. */
  datatype User = User(id: int, name: string, email: string, isActive: bool)

  const REQUIRED_MESSAGE: string := "name and email are required"

  /** The table invariant that `NewUserService` establishes and `CreateUser` keeps. */
  ghost predicate TableInvariant(users: map<int, User>) {
    (forall k :: k in users <==> 1 <= k <= |users|) &&
    (forall k :: k in users ==>
       users[k].id == k && users[k].isActive && users[k].name != "" && users[k].email != "")
  }

  /** The IDs of the stored users that are active. */
  function ActiveIds(users: map<int, User>): set<int> {
    set k | k in users && users[k].isActive
  }

  /** The IDs of active stored users outside `remaining`: those a walk over the map has already visited. */
  function ActiveVisited(users: map<int, User>, remaining: set<int>): set<int> {
    set k | k in users && k !in remaining && users[k].isActive
  }

  /** Visiting one more stored ID adds it to the visited active ones exactly when its user is active. */
  lemma VisitStep(users: map<int, User>, remaining: set<int>, id: int)
    requires id in users && id in remaining
    ensures users[id].isActive ==>
      |ActiveVisited(users, remaining - {id})| == |ActiveVisited(users, remaining)| + 1
    ensures !users[id].isActive ==> ActiveVisited(users, remaining - {id}) == ActiveVisited(users, remaining)
  {
    if users[id].isActive {
      assert ActiveVisited(users, remaining - {id}) == ActiveVisited(users, remaining) + {id};
    } else {
      assert ActiveVisited(users, remaining - {id}) == ActiveVisited(users, remaining);
    }
  }

  /** A non-empty set of IDs has a member to pick. */
  lemma NonEmptyHasMember(ids: set<int>)
    requires ids != {}
    ensures exists id :: id in ids
  {
    if forall id: int :: id !in ids {
      assert false;
    }
  }

  /**
   * Inserting a well-formed user under `len + 1` never overwrites (that ID
   * exceeds every key), adds exactly one entry and keeps the invariant.
   */
  lemma InsertKeepsInvariant(users: map<int, User>, name: string, email: string)
    requires TableInvariant(users)
    requires name != "" && email != ""
    ensures |users| + 1 !in users
    ensures forall k :: k in users ==> k < |users| + 1
    ensures var grown := users[|users| + 1 := User(|users| + 1, name, email, true)];
      |grown| == |users| + 1 && TableInvariant(grown) &&
      forall k :: k in users ==> k in grown && grown[k] == users[k]
  {
  }

  /** Every user of a table that keeps the invariant is active. */
  lemma AllStoredUsersActive(users: map<int, User>)
    requires TableInvariant(users)
    ensures ActiveIds(users) == users.Keys
    ensures |ActiveIds(users)| == |users|
  {
    forall k
      ensures k in ActiveIds(users) <==> k in users
    {
      if k in users {
        assert users[k].isActive;
      }
    }
  }

  class UserService {
    var users: map<int, User>

    ghost predicate Valid()
      reads this
    {
      TableInvariant(users)
    }

    /** `NewUserService`: a service holding no users. */
    constructor ()
      ensures Valid()
      ensures users == map[]
    {
      users := map[];
    }

    /** `CreateUser`: rejects an empty name or email, otherwise stores an active user under `len + 1`. */
    method CreateUser(name: string, email: string) returns (r: Result<User, string>)
      requires Valid()
      modifies this
      ensures Valid()
      ensures r.Err? <==> name == "" || email == ""
      ensures r.Err? ==> r.error == REQUIRED_MESSAGE && users == old(users)
      ensures r.Ok? ==> r.value == User(old(|users|) + 1, name, email, true)
      ensures r.Ok? ==> r.value.id !in old(users) && users == old(users)[r.value.id := r.value]
      ensures r.Ok? ==> |users| == old(|users|) + 1
      ensures r.Ok? ==> forall k :: k in old(users) ==> k in users && users[k] == old(users)[k]
    {
      if name == "" || email == "" {
        return Err(REQUIRED_MESSAGE);
      }
      var user := User(|users| + 1, name, email, true);
      InsertKeepsInvariant(users, name, email);
      users := users[user.id := user];
      r := Ok(user);
    }

    /** `GetUser`: the user stored under `id`, if any; a found user carries that ID. */
    function GetUser(id: int): (r: Option<User>)
      reads this
      ensures r.Some? <==> id in users
      ensures r.Some? ==> r.value == users[id]
      ensures Valid() && r.Some? ==> r.value.id == id && r.value.isActive
    {
      if id in users then Some(users[id]) else None
    }

    /**
     * `ListUsers`: the active stored users, each once. Go visits the map in a
     * random order, so the order of the result is left unspecified. The length
     * is one per active ID; which user fills each place is exact only under
     * `Valid()`, where distinct IDs hold distinct users.
     */
    method ListUsers() returns (active: seq<User>)
      ensures forall i :: 0 <= i < |active| ==> active[i].isActive && active[i] in users.Values
      ensures forall k :: k in users && users[k].isActive ==> users[k] in active
      ensures |active| == |ActiveIds(users)|
      ensures Valid() ==> |active| == |users| && forall k :: k in users ==> users[k] in active
    {
      active := [];
      var remaining := users.Keys;
      while remaining != {}
        invariant remaining <= users.Keys
        invariant forall i :: 0 <= i < |active| ==> active[i].isActive && active[i] in users.Values
        invariant forall k :: k in users && k !in remaining && users[k].isActive ==> users[k] in active
        invariant |active| == |ActiveVisited(users, remaining)|
        decreases remaining
      {
        NonEmptyHasMember(remaining);
        var id :| id in remaining;
        VisitStep(users, remaining, id);
        if users[id].isActive {
          active := active + [users[id]];
        }
        remaining := remaining - {id};
      }
      assert ActiveVisited(users, {}) == ActiveIds(users);
      if Valid() {
        AllStoredUsersActive(users);
      }
    }
  }

  /**
   * The samples `main` creates, in order: exactly those whose name and email
   * are both non-empty; the others fail and are skipped.
   */
  function Accepted(samples: seq<(string, string)>): (r: seq<(string, string)>)
    ensures |r| <= |samples|
    ensures forall i :: 0 <= i < |r| ==> r[i] in samples && r[i].0 != "" && r[i].1 != ""
    ensures forall x :: x in samples && x.0 != "" && x.1 != "" ==> x in r
    ensures (forall x :: x in samples ==> x.0 != "" && x.1 != "") ==> r == samples
  {
    if samples == [] then []
    else
      var init, last := samples[..|samples| - 1], samples[|samples| - 1];
      assert samples == init + [last];
      var rest := Accepted(init);
      if last.0 != "" && last.1 != "" then rest + [last] else rest
  }

  /** `idx` picks out `r` from `samples`: strictly increasing positions holding `r`'s elements in turn. */
  predicate Embeds(idx: seq<int>, samples: seq<(string, string)>, r: seq<(string, string)>) {
    |idx| == |r| &&
    (forall i :: 0 <= i < |idx| ==> 0 <= idx[i] < |samples| && samples[idx[i]] == r[i]) &&
    (forall i, j :: 0 <= i < j < |idx| ==> idx[i] < idx[j])
  }

  /** The samples created keep their input order: they form a subsequence of the samples. */
  lemma {:induction false} AcceptedIsSubsequence(samples: seq<(string, string)>)
    ensures exists idx :: Embeds(idx, samples, Accepted(samples))
  {
    if samples == [] {
      assert Embeds([], samples, Accepted(samples));
    } else {
      var init, last := samples[..|samples| - 1], samples[|samples| - 1];
      AcceptedIsSubsequence(init);
      var idx :| Embeds(idx, init, Accepted(init));
      if last.0 != "" && last.1 != "" {
        assert Embeds(idx + [|samples| - 1], samples, Accepted(samples));
      } else {
        assert Embeds(idx, samples, Accepted(samples));
      }
    }
  }

  /**
   * Each well-formed sample is created as many times as it occurs: a repeated
   * sample gives a user per occurrence. Malformed samples are never created.
   */
  lemma {:induction false} AcceptedKeepsEveryCopy(samples: seq<(string, string)>)
    ensures forall x: (string, string) :: x.0 != "" && x.1 != "" ==>
      multiset(Accepted(samples))[x] == multiset(samples)[x]
    ensures forall x: (string, string) :: x.0 == "" || x.1 == "" ==>
      multiset(Accepted(samples))[x] == 0
  {
    if samples != [] {
      var init, last := samples[..|samples| - 1], samples[|samples| - 1];
      assert samples == init + [last];
      assert multiset(samples) == multiset(init) + multiset{last};
      AcceptedKeepsEveryCopy(init);
      if last.0 != "" && last.1 != "" {
        assert multiset(Accepted(samples)) == multiset(Accepted(init)) + multiset{last};
      } else {
        assert Accepted(samples) == Accepted(init);
      }
    }
  }

  /** The users `SeedUsers` creates, as a function of the samples. */
  function SeedPrefix(samples: seq<(string, string)>): (r: seq<User>) {
    var accepted := Accepted(samples);
    seq(|accepted|, i requires 0 <= i < |accepted| => User(i + 1, accepted[i].0, accepted[i].1, true))
  }

  /**
   * The seeding loop of `main`: create each sample in turn on a fresh service,
   * skipping (and logging) the ones that fail. The users created get IDs 1, 2, ...
   * in order, and they are exactly the contents of the service.
   */
  method SeedUsers(samples: seq<(string, string)>) returns (service: UserService, created: seq<User>)
    ensures fresh(service) && service.Valid()
    ensures |created| == |Accepted(samples)|
    ensures forall i :: 0 <= i < |created| ==>
      created[i] == User(i + 1, Accepted(samples)[i].0, Accepted(samples)[i].1, true)
    ensures forall i :: 0 <= i < |created| ==> created[i].id in service.users && service.users[created[i].id] == created[i]
    ensures |service.users| == |created|
  {
    service := new UserService();
    created := [];
    for n := 0 to |samples|
      invariant service.Valid()
      invariant created == SeedPrefix(samples[..n])
      invariant |service.users| == |created|
      invariant forall i :: 0 <= i < |created| ==> created[i].id in service.users && service.users[created[i].id] == created[i]
    {
      assert samples[..n + 1][..n] == samples[..n];
      var r := service.CreateUser(samples[n].0, samples[n].1);
      if r.Err? {
        continue;
      }
      created := created + [r.value];
    }
    assert samples[..|samples|] == samples;
  }

  /** `main` seeds Alice, Bob and Carol; they receive IDs 1, 2 and 3. */
  method SeedSampleUsers() returns (service: UserService, ids: seq<int>)
    ensures fresh(service) && service.Valid()
    ensures ids == [1, 2, 3]
    ensures service.users.Keys == {1, 2, 3}
  {
    var samples := [("Alice Johnson", "alice@example.com"),
                    ("Bob Smith", "bob@example.com"),
                    ("Carol Davis", "carol@example.com")];
    assert Accepted(samples) == samples;
    var created;
    service, created := SeedUsers(samples);
    ids := [created[0].id, created[1].id, created[2].id];
    assert forall k :: k in service.users <==> 1 <= k <= 3;
  }
}
