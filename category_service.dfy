/** The category service: an administrator creates a category from a trimmed,
    non-empty name; anyone signed in lists them all. Names are not unique. */
module CategoryService {
  import opened Util
  import opened Errors
  import opened Records
  import opened Store

  function NameMissing(): ErrorRecord {
    ErrorResponse("Category name does not provided", None, "")
  }

  /** `Create`: the name is trimmed, an empty result is refused, otherwise a
      category with the trimmed name is stored under a new id. */
  function CreateStep(s: DbState, name: string, now: int): (out: (DbState, Result<Id>))
    ensures out.1.Failure? <==> Trim(name) == ""
    ensures out.1.Failure? ==> out == (s, Failure(NameMissing()))
    ensures out.1.Success? ==>
              && out.1.value == s.nextId
              && out.0 == s.(categories := s.categories[s.nextId := Category(Trim(name), now)], nextId := s.nextId + 1)
  {
    var trimmed := Trim(name);
    if trimmed == "" then (s, Failure(NameMissing()))
    else (s.(categories := s.categories[s.nextId := Category(trimmed, now)], nextId := s.nextId + 1), Success(s.nextId))
  }

  /** The route lets only an administrator reach `Create`. */
  method Create(db: Db, caller: Role, name: string, now: int) returns (r: Result<Id>)
    requires caller == ADMIN
    modifies db
    ensures (db.State(), r) == CreateStep(old(db.State()), name, now)
  {
    var trimmed := Trim(name);
    if trimmed == "" {
      return Failure(NameMissing());
    }
    var id := db.CreateCategory(Category(trimmed, now));
    r := Success(id);
  }

  /** A name of white space only is refused, and nothing is stored. */
  lemma {:induction false} BlankNameRefused(s: DbState, name: string, now: int)
    requires forall k :: 0 <= k < |name| ==> IsWhiteSpace(name[k])
    ensures CreateStep(s, name, now) == (s, Failure(NameMissing()))
  {
  }

  /** The stored name is already trimmed: creating a category from it stores
      the same name again. */
  lemma {:induction false} StoredNameIsTrimmed(s: DbState, name: string, now: int, later: int)
    requires CreateStep(s, name, now).1.Success?
    ensures var s' := CreateStep(s, name, now).0;
            var stored := s'.categories[s.nextId].name;
            && Trim(stored) == stored
            && CreateStep(s', stored, later).1.Success?
            && CreateStep(s', stored, later).0.categories[s'.nextId].name == stored
  {
    TrimIdempotent(name);
  }

  /** There is no duplicate check: the same name twice yields two categories
      with distinct ids and the same name. */
  lemma {:induction false} SameNameTwice(s: DbState, name: string, now: int, later: int)
    requires Trim(name) != ""
    ensures var (s1, r1) := CreateStep(s, name, now);
            var (s2, r2) := CreateStep(s1, name, later);
            && r1.Success? && r2.Success? && r1.value != r2.value
            && r1.value in s2.categories && r2.value in s2.categories
            && s2.categories[r1.value].name == s2.categories[r2.value].name == Trim(name)
  {
    var (s1, r1) := CreateStep(s, name, now);
    assert r1.value == s.nextId && s1.nextId == s.nextId + 1;
  }

  /** Creating a category keeps the store consistent. */
  lemma {:induction false} CreateKeepsConsistent(s: DbState, name: string, now: int)
    requires Consistent(s)
    ensures Consistent(CreateStep(s, name, now).0)
  {
    var r := CreateStep(s, name, now).0;
    if Trim(name) != "" {
      assert Fresh(r);
    }
  }

  /** `GetAllCategories`: `find({})` lists every category, in natural order. */
  function GetAllCategories(s: DbState): (r: seq<Id>)
    ensures forall k :: k in r <==> k in s.categories
    ensures forall i, j :: 0 <= i < j < |r| ==> r[i] < r[j]
  {
    var r := SortBy(s.categories.Keys, NaturalKey());
    assert forall i, j :: 0 <= i < j < |r| ==> Precedes(NaturalKey(), r[i], r[j]);
    r
  }

  /** The category with the greatest id is listed last. */
  lemma {:induction false} GreatestIsLast(s: DbState, m: Id)
    requires m in s.categories && forall k :: k in s.categories ==> k <= m
    ensures |GetAllCategories(s)| > 0 && GetAllCategories(s)[|GetAllCategories(s)| - 1] == m
  {
    var all := GetAllCategories(s);
    assert m in all;
    var i :| 0 <= i < |all| && all[i] == m;
    assert all[|all| - 1] in all;
    assert all[|all| - 1] in s.categories;
  }

  /** A created category is listed, last. */
  lemma {:induction false} CreatedIsListedLast(s: DbState, name: string, now: int)
    requires Consistent(s) && Trim(name) != ""
    ensures var out := CreateStep(s, name, now);
            var all := GetAllCategories(out.0);
            |all| > 0 && all[|all| - 1] == out.1.value
  {
    var out := CreateStep(s, name, now);
    assert forall k :: k in s.categories ==> k < s.nextId;
    assert forall k :: k in out.0.categories ==> k <= out.1.value;
    GreatestIsLast(out.0, out.1.value);
  }
}
