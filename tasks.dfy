/**
 The task record and the list transformations the screen's handlers apply to
 it: `find` by id, `map` that renames or toggles by id, `filter` that drops an
 id, and the case-insensitive title search.
 */
module Tasks {
  import opened Text

  /** One to-do entry. */
  datatype Task = Task(id: int, title: string, isDone: bool)

  datatype Option<T> = None | Some(value: T)

  /** Some entry of `s` carries `id`. */
  predicate HasId(s: seq<Task>, id: int) {
    exists i :: 0 <= i < |s| && s[i].id == id
  }

  /** No two entries of `s` share an id. */
  predicate UniqueIds(s: seq<Task>) {
    forall i, j :: 0 <= i < j < |s| ==> s[i].id != s[j].id
  }

  /** `r` is `s` with some entries left out and the rest kept in order. */
  ghost predicate IsSubseq(r: seq<Task>, s: seq<Task>)
    decreases |s|
  {
    r == [] || (s != [] && ((r[0] == s[0] && IsSubseq(r[1..], s[1..])) || IsSubseq(r, s[1..])))
  }

  /** Every entry of a subsequence is an entry of the whole. */
  lemma {:induction false} SubseqMembers(r: seq<Task>, s: seq<Task>)
    requires IsSubseq(r, s)
    ensures forall t :: t in r ==> t in s
    decreases |s|
  {
    if r != [] {
      if r[0] == s[0] && IsSubseq(r[1..], s[1..]) {
        SubseqMembers(r[1..], s[1..]);
        assert forall t :: t in r ==> t == r[0] || t in r[1..];
      } else {
        SubseqMembers(r, s[1..]);
      }
    }
  }

  /** Leaving entries out of a list with unique ids keeps them unique. */
  lemma {:induction false} SubseqUniqueIds(r: seq<Task>, s: seq<Task>)
    requires IsSubseq(r, s) && UniqueIds(s)
    ensures UniqueIds(r)
    decreases |s|
  {
    if r != [] {
      assert UniqueIds(s[1..]) by {
        forall i, j | 0 <= i < j < |s[1..]| ensures s[1..][i].id != s[1..][j].id {
          assert s[1..][i] == s[i + 1] && s[1..][j] == s[j + 1];
        }
      }
      if r[0] == s[0] && IsSubseq(r[1..], s[1..]) {
        SubseqUniqueIds(r[1..], s[1..]);
        SubseqMembers(r[1..], s[1..]);
        forall i, j | 0 <= i < j < |r| ensures r[i].id != r[j].id {
          if i == 0 {
            assert r[j] == r[1..][j - 1];
            assert r[j] in r[1..];
            assert r[j] in s[1..];
            var m :| 0 <= m < |s[1..]| && s[1..][m] == r[j];
            assert s[m + 1] == r[j];
          } else {
            assert r[i] == r[1..][i - 1] && r[j] == r[1..][j - 1];
          }
        }
      } else {
        SubseqUniqueIds(r, s[1..]);
      }
    }
  }

  /** `todos.find(todo => todo.id === id)`: the first entry with that id. */
  function Find(s: seq<Task>, id: int): (r: Option<Task>)
    ensures r.None? <==> !HasId(s, id)
    ensures r.Some? ==> exists k :: 0 <= k < |s| && s[k] == r.value && r.value.id == id
                                    && !HasId(s[..k], id)
  {
    if s == [] then None
    else if s[0].id == id then
      assert s[..0] == [];
      Some(s[0])
    else
      var r := Find(s[1..], id);
      assert HasId(s, id) ==> HasId(s[1..], id) by {
        if HasId(s, id) {
          var i :| 0 <= i < |s| && s[i].id == id;
          assert s[1..][i - 1] == s[i];
        }
      }
      assert r.Some? ==> exists k :: 0 <= k < |s| && s[k] == r.value && !HasId(s[..k], id) by {
        if r.Some? {
          var k :| 0 <= k < |s[1..]| && s[1..][k] == r.value && !HasId(s[1..][..k], id);
          assert s[..k + 1] == [s[0]] + s[1..][..k];
          assert s[k + 1] == r.value;
        }
      }
      r
  }

  /** The `map` of `saveEdit`: every entry with `id` gets `title`; ids, done
      flags, length and order are those of `s`. */
  function RenameById(s: seq<Task>, id: int, title: string): (r: seq<Task>)
    ensures |r| == |s|
    ensures forall i :: 0 <= i < |s| ==>
      r[i].id == s[i].id && r[i].isDone == s[i].isDone &&
      r[i].title == (if s[i].id == id then title else s[i].title)
  {
    if s == [] then []
    else [if s[0].id == id then s[0].(title := title) else s[0]] + RenameById(s[1..], id, title)
  }

  /** The `map` of `handleDone`: every entry with `id` has its done flag
      flipped; ids, titles, length and order are those of `s`. */
  function ToggleById(s: seq<Task>, id: int): (r: seq<Task>)
    ensures |r| == |s|
    ensures forall i :: 0 <= i < |s| ==>
      r[i].id == s[i].id && r[i].title == s[i].title &&
      r[i].isDone == (if s[i].id == id then !s[i].isDone else s[i].isDone)
  {
    if s == [] then []
    else [if s[0].id == id then s[0].(isDone := !s[0].isDone) else s[0]] + ToggleById(s[1..], id)
  }

  /** The `filter` of `deleteTodo`: the entries of `s` whose id is not `id`. */
  function RemoveById(s: seq<Task>, id: int): (r: seq<Task>)
    ensures |r| <= |s|
    ensures forall t :: t in r <==> t in s && t.id != id
  {
    if s == [] then []
    else
      var rest := RemoveById(s[1..], id);
      assert forall t :: t in s <==> t == s[0] || t in s[1..];
      if s[0].id == id then rest else [s[0]] + rest
  }

  /** The search predicate: the lowercased title contains the lowercased query. */
  predicate Matches(t: Task, query: string) {
    Contains(Lower(t.title), Lower(query))
  }

  /** The `filter` of `onSearch`: the entries of `s` that match `query`. */
  function FilterByQuery(s: seq<Task>, query: string): (r: seq<Task>)
    ensures |r| <= |s|
    ensures forall t :: t in r <==> t in s && Matches(t, query)
  {
    if s == [] then []
    else
      var rest := FilterByQuery(s[1..], query);
      assert forall t :: t in s <==> t == s[0] || t in s[1..];
      if Matches(s[0], query) then [s[0]] + rest else rest
  }

  /** What `onSearch` shows: the whole snapshot for a blank query, the matching
      entries otherwise. */
  function SearchResult(snapshot: seq<Task>, query: string): seq<Task> {
    if Trim(query) == [] then snapshot else FilterByQuery(snapshot, query)
  }

  // ---------------------------------------------------------------------------
  // Renaming and toggling

  /** Renaming keeps the ids, so it keeps them unique. */
  lemma RenameKeepsIds(s: seq<Task>, id: int, title: string)
    ensures forall k :: HasId(RenameById(s, id, title), k) <==> HasId(s, k)
    ensures UniqueIds(RenameById(s, id, title)) <==> UniqueIds(s)
  {
    var r := RenameById(s, id, title);
    forall k ensures HasId(r, k) <==> HasId(s, k) {
      if HasId(r, k) { var i :| 0 <= i < |r| && r[i].id == k; assert s[i].id == k; }
      if HasId(s, k) { var i :| 0 <= i < |s| && s[i].id == k; assert r[i].id == k; }
    }
  }

  /** Renaming an id no entry carries changes nothing. */
  lemma RenameAbsent(s: seq<Task>, id: int, title: string)
    requires !HasId(s, id)
    ensures RenameById(s, id, title) == s
  {
    var r := RenameById(s, id, title);
    forall i | 0 <= i < |s| ensures r[i] == s[i] {
      assert s[i].id != id;
    }
  }

  /** Toggling keeps the ids, so it keeps them unique. */
  lemma ToggleKeepsIds(s: seq<Task>, id: int)
    ensures forall k :: HasId(ToggleById(s, id), k) <==> HasId(s, k)
    ensures UniqueIds(ToggleById(s, id)) <==> UniqueIds(s)
  {
    var r := ToggleById(s, id);
    forall k ensures HasId(r, k) <==> HasId(s, k) {
      if HasId(r, k) { var i :| 0 <= i < |r| && r[i].id == k; assert s[i].id == k; }
      if HasId(s, k) { var i :| 0 <= i < |s| && s[i].id == k; assert r[i].id == k; }
    }
  }

  /** Toggling the same id twice gives back the list. */
  lemma ToggleTwice(s: seq<Task>, id: int)
    ensures ToggleById(ToggleById(s, id), id) == s
  {
    var r := ToggleById(ToggleById(s, id), id);
    forall i | 0 <= i < |s| ensures r[i] == s[i] {
      assert ToggleById(s, id)[i].id == s[i].id;
    }
  }

  /** Toggling an id no entry carries changes nothing. */
  lemma ToggleAbsent(s: seq<Task>, id: int)
    requires !HasId(s, id)
    ensures ToggleById(s, id) == s
  {
    var r := ToggleById(s, id);
    forall i | 0 <= i < |s| ensures r[i] == s[i] {
      assert s[i].id != id;
    }
  }

  // ---------------------------------------------------------------------------
  // Removing

  /** Removal keeps the surviving entries in their order. */
  lemma {:induction false} RemoveIsSubseq(s: seq<Task>, id: int)
    ensures IsSubseq(RemoveById(s, id), s)
    decreases |s|
  {
    if s != [] {
      RemoveIsSubseq(s[1..], id);
      var rest := RemoveById(s[1..], id);
      if s[0].id == id {
        SubseqDropHead(rest, s);
      } else {
        assert ([s[0]] + rest)[1..] == rest;
      }
    }
  }

  /** A subsequence of the tail is a subsequence of the whole list. */
  lemma SubseqDropHead(r: seq<Task>, s: seq<Task>)
    requires s != [] && IsSubseq(r, s[1..])
    ensures IsSubseq(r, s)
  {
  }

  /** Removal distributes over concatenation; with the one-entry cases
      (an entry with `id` goes, any other stays) this pins `RemoveById` down
      as the order-preserving filter. */
  lemma {:induction false} RemoveAppend(a: seq<Task>, b: seq<Task>, id: int)
    ensures RemoveById(a + b, id) == RemoveById(a, id) + RemoveById(b, id)
    decreases |a|
  {
    if a == [] {
      assert a + b == b;
    } else {
      assert (a + b)[1..] == a[1..] + b;
      RemoveAppend(a[1..], b, id);
    }
  }

  /** Removing an id no entry carries changes nothing. */
  lemma {:induction false} RemoveAbsent(s: seq<Task>, id: int)
    requires !HasId(s, id)
    ensures RemoveById(s, id) == s
    decreases |s|
  {
    if s != [] {
      RemoveAbsent(s[1..], id);
      assert s[0].id != id;
      assert s == [s[0]] + s[1..];
    }
  }

  /** After removal no entry carries the id. */
  lemma RemoveLeavesNoId(s: seq<Task>, id: int)
    ensures !HasId(RemoveById(s, id), id)
  {
  }

  /** Removing twice removes nothing more than removing once. */
  lemma RemoveIdempotent(s: seq<Task>, id: int)
    ensures RemoveById(RemoveById(s, id), id) == RemoveById(s, id)
  {
    RemoveLeavesNoId(s, id);
    RemoveAbsent(RemoveById(s, id), id);
  }

  /** Removal keeps ids unique. */
  lemma RemoveKeepsUnique(s: seq<Task>, id: int)
    requires UniqueIds(s)
    ensures UniqueIds(RemoveById(s, id))
  {
    RemoveIsSubseq(s, id);
    SubseqUniqueIds(RemoveById(s, id), s);
  }

  // ---------------------------------------------------------------------------
  // Searching

  /** The search filter keeps the matching entries in their order. */
  lemma {:induction false} FilterIsSubseq(s: seq<Task>, query: string)
    ensures IsSubseq(FilterByQuery(s, query), s)
    decreases |s|
  {
    if s != [] {
      FilterIsSubseq(s[1..], query);
      var rest := FilterByQuery(s[1..], query);
      if Matches(s[0], query) {
        assert ([s[0]] + rest)[1..] == rest;
      } else {
        SubseqDropHead(rest, s);
      }
    }
  }

  /** The search filter distributes over concatenation. */
  lemma {:induction false} FilterAppend(a: seq<Task>, b: seq<Task>, query: string)
    ensures FilterByQuery(a + b, query) == FilterByQuery(a, query) + FilterByQuery(b, query)
    decreases |a|
  {
    if a == [] {
      assert a + b == b;
    } else {
      assert (a + b)[1..] == a[1..] + b;
      FilterAppend(a[1..], b, query);
    }
  }

  /** A blank query shows the whole snapshot; any other query shows exactly
      the matching entries, in snapshot order. */
  lemma SearchSpec(snapshot: seq<Task>, query: string)
    ensures IsBlank(query) ==> SearchResult(snapshot, query) == snapshot
    ensures !IsBlank(query) ==> SearchResult(snapshot, query) == FilterByQuery(snapshot, query)
    ensures IsSubseq(SearchResult(snapshot, query), snapshot)
    ensures forall t :: t in SearchResult(snapshot, query) <==>
                        t in snapshot && (IsBlank(query) || Matches(t, query))
  {
    FilterIsSubseq(snapshot, query);
    SubseqRefl(snapshot);
  }

  /** Every list is a subsequence of itself. */
  lemma {:induction false} SubseqRefl(s: seq<Task>)
    ensures IsSubseq(s, s)
    decreases |s|
  {
    if s != [] {
      SubseqRefl(s[1..]);
    }
  }

  /** Search ignores letter case in the query. */
  lemma SearchIgnoresQueryCase(snapshot: seq<Task>, query: string)
    ensures FilterByQuery(snapshot, Lower(query)) == FilterByQuery(snapshot, query)
  {
    LowerIdempotent(query);
    assert forall t :: Matches(t, Lower(query)) == Matches(t, query);
    FilterSameMatches(snapshot, Lower(query), query);
  }

  /** Two queries that match the same entries filter alike. */
  lemma {:induction false} FilterSameMatches(s: seq<Task>, q1: string, q2: string)
    requires forall t :: Matches(t, q1) == Matches(t, q2)
    ensures FilterByQuery(s, q1) == FilterByQuery(s, q2)
    decreases |s|
  {
    if s != [] {
      FilterSameMatches(s[1..], q1, q2);
    }
  }

  /** Search keeps ids unique. */
  lemma SearchKeepsUnique(snapshot: seq<Task>, query: string)
    requires UniqueIds(snapshot)
    ensures UniqueIds(SearchResult(snapshot, query))
  {
    SearchSpec(snapshot, query);
    SubseqUniqueIds(SearchResult(snapshot, query), snapshot);
  }

  // ---------------------------------------------------------------------------
  // Adding

  /** Prepending an entry whose id is new keeps ids unique; prepending one
      whose id is already there does not. */
  lemma PrependUnique(t: Task, s: seq<Task>)
    requires UniqueIds(s)
    ensures UniqueIds([t] + s) <==> !HasId(s, t.id)
  {
    var r := [t] + s;
    if HasId(s, t.id) {
      var i :| 0 <= i < |s| && s[i].id == t.id;
      assert r[0].id == r[i + 1].id;
    } else {
      forall i, j | 0 <= i < j < |r| ensures r[i].id != r[j].id {
        assert r[j] == s[j - 1];
        if i > 0 { assert r[i] == s[i - 1]; }
      }
    }
  }
}
