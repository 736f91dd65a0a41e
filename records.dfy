/** The records held by the store and the list operations both slice
    reducers perform on them.

    A project or a task is an object with a string `id` and other fields
    this model does not interpret; a task also names the project it belongs
    to. Nothing in the store keeps ids unique, so every operation here is
    stated for lists that may hold several records with the same id. */
module Records {

  type Id = string

  /** Uninterpreted attributes of a record (name, content, description,
      favourite flag, ...), as key/value text. */
  type Fields = map<string, string>

  /** An id-carrying record; `X` stands for everything but the id. */
  datatype Record<X> = Record(id: Id, fields: X)

  datatype TaskFields = TaskFields(projectId: Id, rest: Fields)

  type Project = Record<Fields>
  type Task = Record<TaskFields>

  /** No record in `s` carries `id`. */
  predicate Absent<X>(s: seq<Record<X>>, id: Id) {
    forall i :: 0 <= i < |s| ==> s[i].id != id
  }

  /** `t` is `s` with some elements dropped and the rest in their order. */
  ghost predicate Subsequence<T>(t: seq<T>, s: seq<T>)
    decreases |s|
  {
    t == [] || (s != [] && ((t[0] == s[0] && Subsequence(t[1..], s[1..])) || Subsequence(t, s[1..])))
  }

  /** How many records of `s` carry `id`. */
  function Count<X>(s: seq<Record<X>>, id: Id): (n: nat)
    ensures n <= |s|
    ensures n == 0 <==> Absent(s, id)
  {
    if s == [] then 0
    else (if s[0].id == id then 1 else 0) + Count(s[1..], id)
  }

  /** `list.filter(r => r.id !== id)`: every record whose id is not `id`,
      in the order of `s`. */
  function Without<X>(s: seq<Record<X>>, id: Id): (t: seq<Record<X>>)
    ensures |t| == |s| - Count(s, id)
    ensures Absent(t, id)
  {
    if s == [] then []
    else
      var rest := Without(s[1..], id);
      if s[0].id == id then rest else [s[0]] + rest
  }

  /** Filtering keeps every record whose id differs, drops nothing else,
      adds nothing and keeps the order. */
  lemma {:induction false} WithoutKeepsOthers<X>(s: seq<Record<X>>, id: Id)
    ensures forall i :: 0 <= i < |s| && s[i].id != id ==> s[i] in Without(s, id)
    ensures forall r :: r in Without(s, id) ==> r in s
    ensures Subsequence(Without(s, id), s)
  {
    if s != [] {
      WithoutKeepsOthers(s[1..], id);
      var rest := Without(s[1..], id);
      if s[0].id != id {
        assert Without(s, id) == [s[0]] + rest;
        assert (Without(s, id))[1..] == rest;
      }
      forall i | 1 <= i < |s| && s[i].id != id
        ensures s[i] in Without(s, id)
      {
        assert s[i] == s[1..][i - 1];
      }
    }
  }

  /** `list.map(r => r.id === p.id ? p : r)`: every record with the id of
      `p` is replaced by `p` as a whole; the others stay where they are. */
  function Replace<X>(s: seq<Record<X>>, p: Record<X>): (t: seq<Record<X>>)
    ensures |t| == |s|
    ensures forall i :: 0 <= i < |s| ==> t[i] == if s[i].id == p.id then p else s[i]
  {
    if s == [] then []
    else [if s[0].id == p.id then p else s[0]] + Replace(s[1..], p)
  }

  lemma {:induction false} CountAppend<X>(s: seq<Record<X>>, u: seq<Record<X>>, id: Id)
    ensures Count(s + u, id) == Count(s, id) + Count(u, id)
  {
    if s == [] {
      assert s + u == u;
    } else {
      assert (s + u)[0] == s[0];
      assert (s + u)[1..] == s[1..] + u;
      CountAppend(s[1..], u, id);
    }
  }

  /** Filtering a list that holds no record with `id` changes nothing. */
  lemma {:induction false} WithoutAbsent<X>(s: seq<Record<X>>, id: Id)
    requires Absent(s, id)
    ensures Without(s, id) == s
  {
    if s != [] {
      WithoutAbsent(s[1..], id);
    }
  }

  lemma {:induction false} WithoutIdempotent<X>(s: seq<Record<X>>, id: Id)
    ensures Without(Without(s, id), id) == Without(s, id)
  {
    WithoutAbsent(Without(s, id), id);
  }

  /** Filtering distributes over concatenation. */
  lemma {:induction false} WithoutAppend<X>(s: seq<Record<X>>, u: seq<Record<X>>, id: Id)
    ensures Without(s + u, id) == Without(s, id) + Without(u, id)
  {
    if s == [] {
      assert s + u == u;
    } else {
      var su := s + u;
      assert su[0] == s[0] && su[1..] == s[1..] + u;
      WithoutAppend(s[1..], u, id);
      var rest, tail := Without(s[1..], id), Without(u, id);
      if s[0].id == id {
        assert Without(su, id) == rest + tail;
      } else {
        assert Without(su, id) == [s[0]] + (rest + tail);
        assert [s[0]] + (rest + tail) == ([s[0]] + rest) + tail;
      }
    }
  }

  /** Removing an id after appending a record with that id is the same as
      removing it from the old list: every copy goes, old or new. */
  lemma AppendThenWithout<X>(s: seq<Record<X>>, p: Record<X>)
    ensures Without(s + [p], p.id) == Without(s, p.id)
  {
    WithoutAppend(s, [p], p.id);
    assert Without([p], p.id) == [];
  }

  /** Two removals commute. */
  lemma {:induction false} WithoutCommutes<X>(s: seq<Record<X>>, a: Id, b: Id)
    ensures Without(Without(s, a), b) == Without(Without(s, b), a)
  {
    if s != [] {
      WithoutCommutes(s[1..], a, b);
    }
  }

  /** Replacing with a record whose id nobody carries changes nothing. */
  lemma ReplaceAbsent<X>(s: seq<Record<X>>, p: Record<X>)
    requires Absent(s, p.id)
    ensures Replace(s, p) == s
  {
    var t := Replace(s, p);
    assert forall i :: 0 <= i < |s| ==> t[i] == s[i];
  }

  /** Replacing keeps the id found at every position. */
  lemma ReplaceKeepsIds<X>(s: seq<Record<X>>, p: Record<X>)
    ensures forall i :: 0 <= i < |s| ==> Replace(s, p)[i].id == s[i].id
    ensures forall id :: Count(Replace(s, p), id) == Count(s, id)
  {
    forall id ensures Count(Replace(s, p), id) == Count(s, id) {
      ReplaceKeepsCount(s, p, id);
    }
  }

  lemma {:induction false} ReplaceKeepsCount<X>(s: seq<Record<X>>, p: Record<X>, id: Id)
    ensures Count(Replace(s, p), id) == Count(s, id)
  {
    if s != [] {
      var t := Replace(s, p);
      assert t[1..] == Replace(s[1..], p);
      ReplaceKeepsCount(s[1..], p, id);
    }
  }

  lemma ReplaceIdempotent<X>(s: seq<Record<X>>, p: Record<X>)
    ensures Replace(Replace(s, p), p) == Replace(s, p)
  {
    var t := Replace(s, p);
    var u := Replace(t, p);
    assert forall i :: 0 <= i < |s| ==> u[i] == t[i];
  }

  /** Replacing and then removing the same id is removing alone; more
      generally a removal and a replacement commute. */
  lemma {:induction false} ReplaceThenWithout<X>(s: seq<Record<X>>, p: Record<X>, id: Id)
    ensures Without(Replace(s, p), id) == Replace(Without(s, id), p)
    ensures Without(Replace(s, p), p.id) == Without(s, p.id)
  {
    if s != [] {
      var t := Replace(s, p);
      assert t[1..] == Replace(s[1..], p);
      ReplaceThenWithout(s[1..], p, id);
    }
    if id == p.id {
      ReplaceAbsent(Without(s, id), p);
    }
  }
}
