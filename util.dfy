/** Identifiers, optional values, the MongoDB array update operators on id lists,
    the string operations the services use, and ordering of id sets. */
module Util {

  /** A document identifier (a MongoDB ObjectId). Ids are handed out in increasing
      order, so ascending id order is the collections' natural (insertion) order. */
  type Id = nat

  datatype Option<+T> = None | Some(value: T) {
    function GetOr(default: T): T {
      match this
      case Some(v) => v
      case None => default
    }
  }

  // ---------------------------------------------------------------------------
  // Id lists and the $addToSet / $pull operators
  // ---------------------------------------------------------------------------

  /** The ids a list names, as a set (the `$in` of a query). */
  function Elements(s: seq<Id>): set<Id> {
    set x | x in s
  }

  predicate NoDuplicates(s: seq<Id>) {
    forall i, j :: 0 <= i < j < |s| ==> s[i] != s[j]
  }

  /** `$addToSet`: appends x only when it is absent. */
  function AddToSet(s: seq<Id>, x: Id): (r: seq<Id>)
    ensures x in r
    ensures forall y :: y in r <==> y in s || y == x
    ensures |s| <= |r| <= |s| + 1 && r[..|s|] == s
    ensures x in s ==> r == s
    ensures NoDuplicates(s) ==> NoDuplicates(r)
  {
    if x in s then s else s + [x]
  }

  /** `$pull`: removes every occurrence of x and keeps the order of the rest. */
  function Pull(s: seq<Id>, x: Id): (r: seq<Id>)
    ensures multiset(r) == multiset(s)[x := 0]
    ensures x !in r
    ensures forall y :: y != x ==> (y in r <==> y in s)
    ensures x !in s ==> r == s
  {
    if s == [] then []
    else
      assert s == [s[0]] + s[1..];
      if s[0] == x then Pull(s[1..], x) else [s[0]] + Pull(s[1..], x)
  }

  lemma {:induction false} PullKeepsNoDuplicates(s: seq<Id>, x: Id)
    requires NoDuplicates(s)
    ensures NoDuplicates(Pull(s, x))
  {
    if s != [] {
      PullKeepsNoDuplicates(s[1..], x);
      if s[0] != x {
        var t := Pull(s[1..], x);
        assert s[0] !in t by {
          assert s[0] !in s[1..];
        }
        assert [s[0]] + t == Pull(s, x);
      }
    }
  }

  /** Adding an id and then pulling it is the same as pulling it at once. */
  lemma {:induction false} PullUndoesAddToSet(s: seq<Id>, x: Id)
    ensures Pull(AddToSet(s, x), x) == Pull(s, x)
  {
    if x !in s {
      PullAppended(s, x);
    }
  }

  lemma {:induction false} PullAppended(s: seq<Id>, x: Id)
    ensures Pull(s + [x], x) == Pull(s, x)
  {
    if s == [] {
      assert [] + [x] == [x];
      assert [x][1..] == [];
    } else {
      assert (s + [x])[0] == s[0];
      assert (s + [x])[1..] == s[1..] + [x];
      PullAppended(s[1..], x);
    }
  }

  /** The one toggle primitive behind favourites and likes: membership of x becomes
      `want`, by `$addToSet` when x is wanted and absent and by `$pull` when it is
      unwanted and present; every other case leaves the list as it is. */
  function SetMembership(s: seq<Id>, x: Id, want: bool): (r: seq<Id>)
    ensures (x in r) == want
    ensures forall y :: y != x ==> (y in r <==> y in s)
    ensures (x in s) == want ==> r == s
  {
    if want && x !in s then AddToSet(s, x)
    else if !want && x in s then Pull(s, x)
    else s
  }

  lemma SetMembershipKeepsNoDuplicates(s: seq<Id>, x: Id, want: bool)
    requires NoDuplicates(s)
    ensures NoDuplicates(SetMembership(s, x, want))
  {
    PullKeepsNoDuplicates(s, x);
  }

  // ---------------------------------------------------------------------------
  // Strings
  // ---------------------------------------------------------------------------

  /** `String.prototype.toLowerCase` restricted to the ASCII letters. */
  function LowerChar(c: char): char {
    if 'A' <= c <= 'Z' then (c as int + 32) as char else c
  }

  function ToLower(s: string): (r: string)
    ensures |r| == |s|
    ensures forall i :: 0 <= i < |s| ==> r[i] == LowerChar(s[i])
    ensures forall i :: 0 <= i < |r| ==> !('A' <= r[i] <= 'Z')
  {
    seq(|s|, i requires 0 <= i < |s| => LowerChar(s[i]))
  }

  lemma ToLowerIdempotent(s: string)
    ensures ToLower(ToLower(s)) == ToLower(s)
  {
  }

  /** `sub` occurs in `s` starting at position i. */
  predicate OccursAt(sub: string, s: string, i: nat) {
    i + |sub| <= |s| && s[i..i + |sub|] == sub
  }

  /** True when `sub` occurs in `s` as a contiguous piece (a case-sensitive
      literal search). */
  function IsInfix(sub: string, s: string): (b: bool)
    ensures b <==> exists i: nat :: OccursAt(sub, s, i)
    decreases |s|
  {
    if |sub| > |s| then false
    else if s[..|sub|] == sub then (assert OccursAt(sub, s, 0); true)
    else
      InfixShift(sub, s);
      IsInfix(sub, s[1..])
  }

  lemma InfixShift(sub: string, s: string)
    requires |sub| <= |s| && s[..|sub|] != sub
    ensures (exists i: nat :: OccursAt(sub, s, i)) <==> (exists j: nat :: OccursAt(sub, s[1..], j))
  {
    var t := s[1..];
    if i: nat :| OccursAt(sub, s, i) {
      assert i != 0;
      var j := i - 1;
      assert t[j..j + |sub|] == s[i..i + |sub|];
      assert OccursAt(sub, t, j);
    }
    if j: nat :| OccursAt(sub, t, j) {
      var i := j + 1;
      assert s[i..i + |sub|] == t[j..j + |sub|];
      assert OccursAt(sub, s, i);
    }
  }

  /** The characters `String.prototype.trim` removes: white space and line
      terminators of ECMAScript. */
  predicate IsWhiteSpace(c: char) {
    || c == ' ' || c == '\t' || c == '\n' || c == '\r'
    || c == '\U{B}' || c == '\U{C}' || c == '\U{A0}' || c == '\U{FEFF}'
    || c == '\U{1680}' || ('\U{2000}' <= c <= '\U{200A}')
    || c == '\U{2028}' || c == '\U{2029}' || c == '\U{202F}' || c == '\U{205F}'
    || c == '\U{3000}'
  }

  /** Number of leading white-space characters. */
  function LeadingSpace(s: string): (n: nat)
    ensures n <= |s|
    ensures forall k :: 0 <= k < n ==> IsWhiteSpace(s[k])
    ensures n < |s| ==> !IsWhiteSpace(s[n])
  {
    if s == [] || !IsWhiteSpace(s[0]) then 0 else 1 + LeadingSpace(s[1..])
  }

  /** Number of trailing white-space characters. */
  function TrailingSpace(s: string): (n: nat)
    ensures n <= |s|
    ensures forall k :: |s| - n <= k < |s| ==> IsWhiteSpace(s[k])
    ensures n < |s| ==> !IsWhiteSpace(s[|s| - 1 - n])
  {
    if s == [] || !IsWhiteSpace(s[|s| - 1]) then 0 else 1 + TrailingSpace(s[..|s| - 1])
  }

  /** r is s with the white space before position i and after r removed. */
  predicate TrimmedAt(s: string, r: string, i: nat) {
    && i + |r| <= |s| && r == s[i..i + |r|]
    && (forall k :: 0 <= k < i ==> IsWhiteSpace(s[k]))
    && (forall k :: i + |r| <= k < |s| ==> IsWhiteSpace(s[k]))
  }

  /** `String.prototype.trim`. */
  function Trim(s: string): (r: string)
    ensures |r| <= |s|
    ensures r == [] <==> forall k :: 0 <= k < |s| ==> IsWhiteSpace(s[k])
    ensures r != [] ==> !IsWhiteSpace(r[0]) && !IsWhiteSpace(r[|r| - 1])
    ensures exists i: nat :: TrimmedAt(s, r, i)
  {
    var lead := LeadingSpace(s);
    var rest := s[lead..];
    var trail := TrailingSpace(rest);
    var r := rest[..|rest| - trail];
    assert r == s[lead..lead + |r|];
    assert lead < |s| ==> !IsWhiteSpace(rest[0]) && trail < |rest|;
    assert TrimmedAt(s, r, lead);
    r
  }

  lemma TrimIdempotent(s: string)
    ensures Trim(Trim(s)) == Trim(s)
  {
    var t := Trim(s);
    if t != [] {
      assert LeadingSpace(t) == 0;
      assert TrailingSpace(t) == 0;
    }
  }

  /** `String.prototype.split` on a one-character separator. */
  function Split(s: string, sep: char): (r: seq<string>)
    ensures |r| >= 1
    ensures forall i :: 0 <= i < |r| ==> sep !in r[i]
  {
    if s == [] then [[]]
    else
      var rest := Split(s[1..], sep);
      if s[0] == sep then [[]] + rest
      else [[s[0]] + rest[0]] + rest[1..]
  }

  /** `Array.prototype.join`. */
  function Join(parts: seq<string>, sep: string): (r: string)
    ensures |parts| == 1 ==> r == parts[0]
  {
    if parts == [] then []
    else if |parts| == 1 then parts[0]
    else parts[0] + sep + Join(parts[1..], sep)
  }

  /** Splitting on a separator and joining with it gives the text back. */
  lemma {:induction false} JoinSplit(s: string, sep: char)
    ensures Join(Split(s, sep), [sep]) == s
  {
    if s != [] {
      var rest := Split(s[1..], sep);
      JoinSplit(s[1..], sep);
      if s[0] == sep {
        assert Split(s, sep) == [[]] + rest;
        assert ([[]] + rest)[1..] == rest;
        assert s == [sep] + s[1..];
      } else {
        var parts := [[s[0]] + rest[0]] + rest[1..];
        assert Split(s, sep) == parts;
        if |rest| == 1 {
          assert s == [s[0]] + s[1..];
        } else {
          assert parts[1..] == rest[1..];
          assert Join(rest, [sep]) == rest[0] + [sep] + Join(rest[1..], [sep]);
          assert s == [s[0]] + s[1..];
        }
      }
    }
  }

  /** Splitting `a + [sep] + b` where `a` holds no separator puts `a` first. */
  lemma {:induction false} SplitAfterWord(a: string, sep: char, b: string)
    requires sep !in a
    ensures Split(a + [sep] + b, sep) == [a] + Split(b, sep)
  {
    if a == [] {
      assert [] + [sep] + b == [sep] + b;
      assert ([sep] + b)[1..] == b;
    } else {
      assert (a + [sep] + b)[1..] == a[1..] + [sep] + b;
      SplitAfterWord(a[1..], sep, b);
      assert a == [a[0]] + a[1..];
    }
  }

  /** A text holding no separator splits into itself alone. */
  lemma {:induction false} SplitWithoutSeparator(s: string, sep: char)
    requires sep !in s
    ensures Split(s, sep) == [s]
  {
    if s != [] {
      SplitWithoutSeparator(s[1..], sep);
      assert s == [s[0]] + s[1..];
    }
  }

  // ---------------------------------------------------------------------------
  // Ordering sets of ids by a sort key (MongoDB `sort`, ties by natural order)
  // ---------------------------------------------------------------------------

  /** a comes before b: smaller key first, equal keys in natural (id) order. */
  predicate Precedes(key: Id -> int, a: Id, b: Id) {
    key(a) < key(b) || (key(a) == key(b) && a < b)
  }

  /** m is in S and precedes every other element of S. */
  predicate IsFirst(key: Id -> int, S: set<Id>, m: Id) {
    m in S && forall y :: y in S && y != m ==> Precedes(key, m, y)
  }

  /** Adding x to T: the first of T+{x} is the earlier of T's first and x. */
  lemma {:induction false} FirstOfAdded(key: Id -> int, T: set<Id>, m: Id, x: Id)
    requires IsFirst(key, T, m) && x !in T
    ensures IsFirst(key, T + {x}, if Precedes(key, m, x) then m else x)
  {
    if !Precedes(key, m, x) {
      assert Precedes(key, x, m);
      forall y | y in T && y != m
        ensures Precedes(key, x, y)
      {
        assert Precedes(key, m, y);
      }
    }
  }

  lemma {:induction false} FirstExists(S: set<Id>, key: Id -> int)
    requires S != {}
    ensures exists m :: IsFirst(key, S, m)
    decreases S
  {
    var x :| x in S;
    if S == {x} {
      assert IsFirst(key, S, x);
    } else {
      FirstExists(S - {x}, key);
      var m :| IsFirst(key, S - {x}, m);
      FirstOfAdded(key, S - {x}, m, x);
      assert S - {x} + {x} == S;
    }
  }

  /** The first element of S in the order `Precedes(key, _, _)`. */
  function First(S: set<Id>, key: Id -> int): (m: Id)
    requires S != {}
    ensures m in S
    ensures forall y :: y in S && y != m ==> Precedes(key, m, y)
  {
    FirstExists(S, key);
    var m :| IsFirst(key, S, m);
    m
  }

  /** The natural order of a query without `sort`: every key equal, so ascending id. */
  function NaturalKey(): Id -> int {
    _ => 0
  }

  predicate SortedBy(key: Id -> int, r: seq<Id>) {
    forall i, j :: 0 <= i < j < |r| ==> Precedes(key, r[i], r[j])
  }

  /** The elements of S listed in the order `Precedes(key, _, _)`. */
  function SortBy(S: set<Id>, key: Id -> int): (r: seq<Id>)
    ensures |r| == |S|
    ensures forall x :: x in r <==> x in S
    ensures SortedBy(key, r)
    decreases S
  {
    if S == {} then []
    else
      var m := First(S, key);
      var rest := SortBy(S - {m}, key);
      assert forall j :: 0 <= j < |rest| ==> rest[j] in S - {m};
      [m] + rest
  }

  /** A sorted listing of S starts with S's first element. */
  lemma {:induction false} SortedHeadIsFirst(S: set<Id>, key: Id -> int, t: seq<Id>)
    requires forall x :: x in t <==> x in S
    requires SortedBy(key, t) && S != {}
    ensures |t| > 0 && t[0] == First(S, key)
  {
    var m := First(S, key);
    assert m in t;
    var k :| 0 <= k < |t| && t[k] == m;
    assert t[0] in S;
    assert t[0] != m ==> Precedes(key, m, t[0]);
    assert k > 0 ==> Precedes(key, t[0], t[k]);
  }

  /** The rest of a sorted listing of S lists the rest of S, sorted. */
  lemma {:induction false} SortedTail(S: set<Id>, key: Id -> int, t: seq<Id>)
    requires forall x :: x in t <==> x in S
    requires SortedBy(key, t) && |t| > 0
    ensures forall x :: x in t[1..] <==> x in S - {t[0]}
    ensures SortedBy(key, t[1..])
  {
    forall x
      ensures x in t[1..] <==> x in S - {t[0]}
    {
      if x in t[1..] {
        var k :| 1 <= k < |t| && t[k] == x;
        assert Precedes(key, t[0], t[k]);
      }
      if x in S - {t[0]} {
        var k :| 0 <= k < |t| && t[k] == x;
        assert t[1..][k - 1] == x;
      }
    }
  }

  /** Sorting is canonical: any sorted listing of S is SortBy's. */
  lemma {:induction false} SortByUnique(S: set<Id>, key: Id -> int, t: seq<Id>)
    requires forall x :: x in t <==> x in S
    requires SortedBy(key, t)
    ensures t == SortBy(S, key)
    decreases S
  {
    assert |t| > 0 ==> t[0] in S;
    if S != {} {
      SortedHeadIsFirst(S, key, t);
      SortedTail(S, key, t);
      SortByUnique(S - {t[0]}, key, t[1..]);
      SortByCons(S, key, t);
    }
  }

  /** A listing that starts with S's first element and goes on with the sorted
      rest of S is SortBy's. */
  lemma {:induction false} SortByCons(S: set<Id>, key: Id -> int, t: seq<Id>)
    requires S != {} && |t| > 0 && t[0] == First(S, key) && t[1..] == SortBy(S - {t[0]}, key)
    ensures t == SortBy(S, key)
  {
    assert t == [t[0]] + t[1..];
  }

  /** MongoDB `skip(offset).limit(limit)`: skip first, then take at most `limit`
      items, where a limit of 0 means no limit. */
  function Page<T>(s: seq<T>, offset: nat, limit: nat): (r: seq<T>)
    ensures |r| == if offset >= |s| then 0
                   else if limit == 0 || |s| - offset <= limit then |s| - offset
                   else limit
    ensures |r| > 0 ==> offset + |r| <= |s|
    ensures forall i :: 0 <= i < |r| ==> r[i] == s[offset + i]
  {
    if offset >= |s| then []
    else if limit == 0 || |s| - offset <= limit then s[offset..]
    else s[offset..offset + limit]
  }

  /** A page of a sorted listing is in the listing's order. */
  lemma {:induction false} PageKeepsOrder(key: Id -> int, t: seq<Id>, offset: nat, limit: nat, i: int, j: int)
    requires SortedBy(key, t) && 0 <= i < j < |Page(t, offset, limit)|
    ensures Precedes(key, Page(t, offset, limit)[i], Page(t, offset, limit)[j])
  {
    assert Page(t, offset, limit)[i] == t[offset + i] && Page(t, offset, limit)[j] == t[offset + j];
  }

  /** Consecutive pages cover the listing without gaps or overlaps. */
  lemma {:induction false} PagesAdjoin<T>(s: seq<T>, offset: nat, limit: nat)
    requires limit > 0
    ensures Page(s, offset, limit) + Page(s, offset + limit, 0) == Page(s, offset, 0)
  {
    var a, b, c := Page(s, offset, limit), Page(s, offset + limit, 0), Page(s, offset, 0);
    assert |a + b| == |c|;
    forall i | 0 <= i < |c| ensures (a + b)[i] == c[i] {
      if i >= |a| {
        assert (a + b)[i] == b[i - |a|];
      }
    }
  }

}
