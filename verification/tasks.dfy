/** The task record and the three list updates the task manager applies to its
    task list: filtering out an id, marking an id as being edited, and saving
    new text for an id. Each mirrors one `filter` or `map` over the list. */
module Tasks {

  /** One to-do item: a server-assigned id, its text and whether it is being
      edited. */
  datatype Task = Task(id: int, text: string, isEditing: bool)

  /** The ids of a task list, in list order. */
  function Ids(ts: seq<Task>): (ids: seq<int>)
    ensures |ids| == |ts|
    ensures forall i :: 0 <= i < |ts| ==> ids[i] == ts[i].id
  {
    seq(|ts|, i requires 0 <= i < |ts| => ts[i].id)
  }

  /** No two tasks of the list share an id. */
  predicate UniqueIds(ts: seq<Task>) {
    forall i, j :: 0 <= i < j < |ts| ==> ts[i].id != ts[j].id
  }

  /** `a` can be obtained from `b` by deleting elements, keeping the order of
      the rest. */
  ghost predicate IsSubsequence(a: seq<Task>, b: seq<Task>)
    decreases |b|
  {
    if |a| == 0 then true
    else if |b| == 0 then false
    else (a[0] == b[0] && IsSubsequence(a[1..], b[1..])) || IsSubsequence(a, b[1..])
  }

  /** Removal of an id: keeps, in order, the tasks whose id differs from
      `id`. */
  function WithoutId(ts: seq<Task>, id: int): (r: seq<Task>)
    ensures |r| <= |ts|
    ensures forall k :: 0 <= k < |r| ==> r[k].id != id
    ensures forall t: Task :: t.id != id ==> multiset(r)[t] == multiset(ts)[t]
  {
    if |ts| == 0 then []
    else
      var rest := WithoutId(ts[1..], id);
      assert ts == [ts[0]] + ts[1..];
      if ts[0].id != id then [ts[0]] + rest else rest
  }

  /** Beginning an edit: every task whose id is `id` is copied with its
      editing flag set; every other task is kept as it is. */
  function MarkEditing(ts: seq<Task>, id: int): (r: seq<Task>)
    ensures |r| == |ts|
    ensures forall i :: 0 <= i < |ts| ==> r[i].id == ts[i].id && r[i].text == ts[i].text
    ensures forall i :: 0 <= i < |ts| ==> r[i].isEditing == (ts[i].isEditing || ts[i].id == id)
  {
    seq(|ts|, i requires 0 <= i < |ts| => if ts[i].id == id then ts[i].(isEditing := true) else ts[i])
  }

  /** Saving an edit: every task whose id is `id` is copied with the new
      text and its editing flag cleared; every other task is kept as it is. */
  function ApplySave(ts: seq<Task>, id: int, text: string): (r: seq<Task>)
    ensures |r| == |ts|
    ensures forall i :: 0 <= i < |ts| ==> r[i].id == ts[i].id
    ensures forall i :: 0 <= i < |ts| && ts[i].id == id ==> r[i].text == text && !r[i].isEditing
    ensures forall i :: 0 <= i < |ts| && ts[i].id != id ==> r[i] == ts[i]
  {
    seq(|ts|, i requires 0 <= i < |ts| =>
      if ts[i].id == id then ts[i].(text := text, isEditing := false) else ts[i])
  }

  // ---------------------------------------------------------------------
  // Filtering out an id
  // ---------------------------------------------------------------------

  /** A subsequence never holds more copies of a task than its source. */
  lemma {:induction false} SubsequenceMultiset(a: seq<Task>, b: seq<Task>)
    requires IsSubsequence(a, b)
    ensures multiset(a) <= multiset(b)
    decreases |b|
  {
    if |a| == 0 {
    } else if a[0] == b[0] && IsSubsequence(a[1..], b[1..]) {
      SubsequenceMultiset(a[1..], b[1..]);
      assert a == [a[0]] + a[1..];
      assert b == [b[0]] + b[1..];
    } else {
      SubsequenceMultiset(a, b[1..]);
      assert b == [b[0]] + b[1..];
    }
  }

  /** Removal is characterised without reference to how it is computed: any
      order-preserving selection `r` from `ts` that holds no task with `id`
      and keeps every other task as often as `ts` does IS the filtered list. */
  lemma {:induction false} WithoutIdIsTheFilter(ts: seq<Task>, id: int, r: seq<Task>)
    requires IsSubsequence(r, ts)
    requires forall k :: 0 <= k < |r| ==> r[k].id != id
    requires forall t: Task :: t.id != id ==> multiset(r)[t] == multiset(ts)[t]
    ensures r == WithoutId(ts, id)
    decreases |ts|
  {
    if |ts| == 0 {
      assert |r| == 0;
    } else {
      var x := ts[0];
      assert ts == [x] + ts[1..];
      if |r| == 0 {
        if x.id != id {
          assert false;
        }
        assert forall t: Task :: t.id != id ==> multiset(ts[1..])[t] == 0;
        WithoutIdIsTheFilter(ts[1..], id, r);
      } else if r[0] == x && IsSubsequence(r[1..], ts[1..]) {
        assert r == [x] + r[1..];
        assert x.id != id;
        forall k | 0 <= k < |r[1..]|
          ensures r[1..][k].id != id
        {
          assert r[1..][k] == r[k + 1];
        }
        forall t: Task | t.id != id
          ensures multiset(r[1..])[t] == multiset(ts[1..])[t]
        {
          assert multiset(r)[t] == multiset(r[1..])[t] + (if t == x then 1 else 0);
          assert multiset(ts)[t] == multiset(ts[1..])[t] + (if t == x then 1 else 0);
        }
        WithoutIdIsTheFilter(ts[1..], id, r[1..]);
      } else {
        assert IsSubsequence(r, ts[1..]);
        if x.id != id {
          SubsequenceMultiset(r, ts[1..]);
          assert false;
        }
        forall t: Task | t.id != id
          ensures multiset(r)[t] == multiset(ts[1..])[t]
        {
          assert multiset(ts)[t] == multiset(ts[1..])[t] + (if t == x then 1 else 0);
        }
        WithoutIdIsTheFilter(ts[1..], id, r);
      }
    }
  }

  /** Filtering out an id that no task carries leaves the list as it was. */
  lemma WithoutIdAbsent(ts: seq<Task>, id: int)
    requires id !in Ids(ts)
    ensures WithoutId(ts, id) == ts
  {
    forall k | 0 <= k < |ts|
      ensures ts[k].id != id
    {
      assert Ids(ts)[k] == ts[k].id;
    }
    WithoutIdNoMatch(ts, id);
  }

  /** Filtering a list in which no task has the id keeps every task. */
  lemma {:induction false} WithoutIdNoMatch(ts: seq<Task>, id: int)
    requires forall k :: 0 <= k < |ts| ==> ts[k].id != id
    ensures WithoutId(ts, id) == ts
    decreases |ts|
  {
    if |ts| > 0 {
      WithoutIdNoMatch(ts[1..], id);
      assert ts == [ts[0]] + ts[1..];
    }
  }

  /** The filtered list is an order-preserving selection from the original. */
  lemma {:induction false} WithoutIdIsSubsequence(ts: seq<Task>, id: int)
    ensures IsSubsequence(WithoutId(ts, id), ts)
    decreases |ts|
  {
    if |ts| > 0 {
      WithoutIdIsSubsequence(ts[1..], id);
      var r := WithoutId(ts, id);
      if ts[0].id == id && |r| > 0 {
        assert r[0] != ts[0];
      }
    }
  }

  /** Filtering distributes over concatenation: the filter keeps order. */
  lemma {:induction false} WithoutIdAppend(a: seq<Task>, b: seq<Task>, id: int)
    ensures WithoutId(a + b, id) == WithoutId(a, id) + WithoutId(b, id)
    decreases |a|
  {
    if |a| == 0 {
      assert a + b == b;
    } else {
      assert (a + b)[1..] == a[1..] + b;
      WithoutIdAppend(a[1..], b, id);
    }
  }

  /** Filtering out `id` removes exactly the occurrences of `id` from the
      multiset of ids and keeps every other id as often as before. */
  lemma {:induction false} WithoutIdIds(ts: seq<Task>, id: int)
    ensures multiset(Ids(WithoutId(ts, id))) == multiset(Ids(ts))[id := 0]
    decreases |ts|
  {
    if |ts| > 0 {
      var x, tail := ts[0], ts[1..];
      WithoutIdIds(tail, id);
      assert ts == [x] + tail;
      WithoutIdCons(x, tail, id);
      IdsConsCleared(x, WithoutId(tail, id), tail, id);
    }
  }

  /** Filtering a list with a task in front. */
  lemma WithoutIdCons(x: Task, tail: seq<Task>, id: int)
    ensures WithoutId([x] + tail, id) ==
      if x.id != id then [x] + WithoutId(tail, id) else WithoutId(tail, id)
  {
    assert ([x] + tail)[0] == x;
    assert ([x] + tail)[1..] == tail;
  }

  /** One step of the induction above: putting a task in front of both
      lists, and dropping it again when its id is the one cleared. */
  lemma IdsConsCleared(x: Task, rest: seq<Task>, tail: seq<Task>, id: int)
    requires multiset(Ids(rest)) == multiset(Ids(tail))[id := 0]
    ensures x.id != id ==> multiset(Ids([x] + rest)) == multiset(Ids([x] + tail))[id := 0]
    ensures x.id == id ==> multiset(Ids(rest)) == multiset(Ids([x] + tail))[id := 0]
  {
    var before := multiset(Ids(tail));
    IdsCons(x, tail);
    IdsCons(x, rest);
    ClearAfterAdd(before, x.id, id);
  }

  /** The ids of a list with a task in front. */
  lemma IdsCons(x: Task, ts: seq<Task>)
    ensures multiset(Ids([x] + ts)) == multiset{x.id} + multiset(Ids(ts))
  {
    assert Ids([x] + ts) == [x.id] + Ids(ts);
  }

  /** Clearing `id` out of a multiset with one more `x` in it. */
  lemma ClearAfterAdd(m: multiset<int>, x: int, id: int)
    ensures x != id ==> (multiset{x} + m)[id := 0] == multiset{x} + m[id := 0]
    ensures x == id ==> (multiset{x} + m)[id := 0] == m[id := 0]
  {
  }

  /** Filtering twice by the same id is the same as filtering once. */
  lemma WithoutIdIdempotent(ts: seq<Task>, id: int)
    ensures WithoutId(WithoutId(ts, id), id) == WithoutId(ts, id)
  {
    var r := WithoutId(ts, id);
    assert forall k :: 0 <= k < |r| ==> Ids(r)[k] != id;
    WithoutIdAbsent(r, id);
  }

  /** Filtering keeps ids unique. */
  lemma WithoutIdKeepsUnique(ts: seq<Task>, id: int)
    requires UniqueIds(ts)
    ensures UniqueIds(WithoutId(ts, id))
  {
    WithoutIdIsSubsequence(ts, id);
    SubsequencePreservesUnique(WithoutId(ts, id), ts);
  }

  /** An order-preserving selection from a list with unique ids has unique ids. */
  lemma {:induction false} SubsequencePreservesUnique(a: seq<Task>, b: seq<Task>)
    requires IsSubsequence(a, b)
    requires UniqueIds(b)
    ensures UniqueIds(a)
    decreases |b|
  {
    if |a| == 0 {
    } else if a[0] == b[0] && IsSubsequence(a[1..], b[1..]) {
      SubsequencePreservesUnique(a[1..], b[1..]);
      SubsequenceMultiset(a[1..], b[1..]);
      forall j | 0 < j < |a|
        ensures a[0].id != a[j].id
      {
        assert a[j] == a[1..][j - 1];
        assert a[j] in multiset(b[1..]);
        var m :| 0 <= m < |b[1..]| && b[1..][m] == a[j];
        assert b[m + 1] == a[j];
      }
      forall i, j | 0 <= i < j < |a|
        ensures a[i].id != a[j].id
      {
        if i > 0 {
          assert a[i] == a[1..][i - 1] && a[j] == a[1..][j - 1];
        }
      }
    } else {
      SubsequencePreservesUnique(a, b[1..]);
    }
  }

  // ---------------------------------------------------------------------
  // Marking an id as being edited, and saving it
  // ---------------------------------------------------------------------

  /** Marking as editing changes no id and leaves tasks with other ids alone. */
  lemma MarkEditingFrame(ts: seq<Task>, id: int)
    ensures Ids(MarkEditing(ts, id)) == Ids(ts)
    ensures forall i :: 0 <= i < |ts| && ts[i].id != id ==> MarkEditing(ts, id)[i] == ts[i]
    ensures id !in Ids(ts) ==> MarkEditing(ts, id) == ts
  {
  }

  /** Marking the same id twice is the same as marking it once. */
  lemma MarkEditingIdempotent(ts: seq<Task>, id: int)
    ensures MarkEditing(MarkEditing(ts, id), id) == MarkEditing(ts, id)
  {
  }

  /** Saving changes no id; saving an absent id changes nothing. */
  lemma ApplySaveFrame(ts: seq<Task>, id: int, text: string)
    ensures Ids(ApplySave(ts, id, text)) == Ids(ts)
    ensures id !in Ids(ts) ==> ApplySave(ts, id, text) == ts
  {
    if id !in Ids(ts) {
      forall i | 0 <= i < |ts|
        ensures ApplySave(ts, id, text)[i] == ts[i]
      {
        assert Ids(ts)[i] == ts[i].id;
      }
    }
  }

  /** Marking as editing first makes no difference to a save of the same id:
      the save overwrites both fields the mark could have touched. */
  lemma EditThenSave(ts: seq<Task>, id: int, text: string)
    ensures ApplySave(MarkEditing(ts, id), id, text) == ApplySave(ts, id, text)
    ensures forall i :: 0 <= i < |ts| && ts[i].id == id ==>
      ApplySave(MarkEditing(ts, id), id, text)[i] == Task(id, text, false)
  {
  }

  /** Editing a task and saving its own text back restores the list, provided
      no task with that id was being edited and all carry that text. */
  lemma EditThenSaveSameTextRestores(ts: seq<Task>, id: int, text: string)
    requires forall i :: 0 <= i < |ts| && ts[i].id == id ==> ts[i].text == text && !ts[i].isEditing
    ensures ApplySave(MarkEditing(ts, id), id, text) == ts
  {
  }
}
