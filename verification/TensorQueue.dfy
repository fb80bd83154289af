/** TensorQueue: the tensors a rank has accepted and the messages about them that the next
    cycle will pick up. */
module TensorQueue {
  import opened Messages
  import opened Protocol
  import opened Seqs
  import Fusion

  /** Length of the longest prefix of `qs` that can be accepted: the place of the first message
      whose name is taken, by the table or by an earlier message. */
  function Accepts(table: map<string, Params>, qs: seq<Request>): (k: nat)
    ensures k <= |qs|
    decreases |qs|
  {
    if qs == [] || qs[0].name in table then 0
    else 1 + Accepts(table[qs[0].name := ParamsOf(qs[0])], qs[1..])
  }

  /** The table with an entry for each message. */
  function Entered(table: map<string, Params>, qs: seq<Request>): map<string, Params> {
    if qs == [] then table
    else Entered(table, qs[..|qs| - 1])[qs[|qs| - 1].name := ParamsOf(qs[|qs| - 1])]
  }

  /** Everything is accepted exactly when the names are new and distinct. */
  lemma {:induction false} AcceptsAll(table: map<string, Params>, qs: seq<Request>)
    ensures Accepts(table, qs) == |qs| <==>
              && (forall i :: 0 <= i < |qs| ==> qs[i].name !in table)
              && (forall i, j :: 0 <= i < j < |qs| ==> qs[i].name != qs[j].name)
    decreases |qs|
  {
    if qs != [] && qs[0].name !in table {
      AcceptsAll(table[qs[0].name := ParamsOf(qs[0])], qs[1..]);
      var ok := (forall i :: 0 <= i < |qs| ==> qs[i].name !in table)
        && (forall i, j :: 0 <= i < j < |qs| ==> qs[i].name != qs[j].name);
      if Accepts(table, qs) == |qs| {
        forall i | 0 < i < |qs| ensures qs[i].name !in table && qs[i].name != qs[0].name {
          assert qs[1..][i - 1] == qs[i];
        }
        forall i, j | 0 < i < j < |qs| ensures qs[i].name != qs[j].name {
          assert qs[1..][i - 1] == qs[i] && qs[1..][j - 1] == qs[j];
        }
      }
      if ok {
        forall i | 0 <= i < |qs[1..]| ensures qs[1..][i] == qs[i + 1] {}
        assert forall i :: 0 <= i < |qs[1..]| ==> qs[1..][i].name !in table[qs[0].name := ParamsOf(qs[0])];
        assert forall i, j :: 0 <= i < j < |qs[1..]| ==> qs[1..][i].name != qs[1..][j].name;
      }
    }
  }

  lemma {:induction false} ListNamesConcat(a: seq<Response>, b: seq<Response>)
    ensures Fusion.ListNames(a + b) == Fusion.ListNames(a) + Fusion.ListNames(b)
  {
    if a == [] {
      assert a + b == b;
    } else {
      ListNamesConcat(a[1..], b);
      assert (a + b)[0] == a[0] && (a + b)[1..] == a[1..] + b;
      ConcatAssociative(a[0].names, Fusion.ListNames(a[1..]), Fusion.ListNames(b));
    }
  }

  lemma {:induction false} DistinctConcat(a: seq<string>, b: seq<string>)
    ensures Distinct(a + b) <==> Distinct(a) && Distinct(b) && forall x :: x in b ==> x !in a
  {
    if Distinct(a + b) {
      forall i, j | 0 <= i < j < |b| ensures b[i] != b[j] { assert (a + b)[|a| + i] != (a + b)[|a| + j]; }
      forall i, j | 0 <= i < j < |a| ensures a[i] != a[j] { assert (a + b)[i] != (a + b)[j]; }
      forall i, j | 0 <= i < |a| && 0 <= j < |b| ensures a[i] != b[j] { assert (a + b)[i] != (a + b)[|a| + j]; }
    } else {
      var i, j :| 0 <= i < j < |a + b| && (a + b)[i] == (a + b)[j];
      assert i < |a| <= j ==> a[i] == b[j - |a|] && b[j - |a|] in b;
    }
  }

  /** One more response can be performed when its names are distinct and still there. */
  lemma {:induction false} PerformNext(table: map<string, Params>, rs: seq<Response>, i: nat)
    requires i < |rs| && CanPerform(table, rs[..i])
    ensures CanPerform(table, rs[..i + 1]) <==>
              Distinct(rs[i].names) && forall n :: n in rs[i].names ==> n in Performed(table, rs[..i])
    ensures Performed(table, rs[..i + 1]) == Performed(table, rs[..i]) - set n | n in rs[i].names
  {
    var before, names := Fusion.ListNames(rs[..i]), rs[i].names;
    NextPrefix(rs, i);
    ListNamesConcat(rs[..i], [rs[i]]);
    assert Fusion.ListNames([rs[i]]) == names + [] == names;
    DistinctConcat(before, names);
    forall n ensures n in before + names <==> n in before || n in names {}
  }

  /** What fails on a prefix fails. */
  lemma {:induction false} PerformPrefix(table: map<string, Params>, rs: seq<Response>, i: nat)
    requires i <= |rs| && CanPerform(table, rs)
    ensures CanPerform(table, rs[..i])
  {
    assert rs == rs[..i] + rs[i..];
    ListNamesConcat(rs[..i], rs[i..]);
    DistinctConcat(Fusion.ListNames(rs[..i]), Fusion.ListNames(rs[i..]));
  }

  class TensorQueue {
    var table: map<string, Params>
    var queue: seq<Request>

    /** Queued messages are about accepted tensors, one message for each. */
    ghost predicate Valid()
      reads this
    {
      && (forall i :: 0 <= i < |queue| ==> queue[i].name in table && table[queue[i].name] == ParamsOf(queue[i]))
      && (forall i, j :: 0 <= i < j < |queue| ==> queue[i].name != queue[j].name)
    }

    constructor ()
      ensures Valid() && table == map[] && queue == []
    {
      table, queue := map[], [];
    }

    /** TensorQueue::AddToTensorQueue. */
    method Add(q: Request) returns (ok: bool)
      modifies this
      ensures old(Valid()) ==> Valid()
      ensures ok <==> q.name !in old(table)
      ensures ok ==> table == old(table)[q.name := ParamsOf(q)] && queue == old(queue) + [q]
      ensures !ok ==> table == old(table) && queue == old(queue)
    {
      ok := q.name !in table;
      if ok {
        table := table[q.name := ParamsOf(q)];
        queue := queue + [q];
      }
    }

    /** TensorQueue::AddToTensorQueueMulti: it stops at the first name that is taken and leaves
        the messages before it accepted. */
    method AddMulti(qs: seq<Request>) returns (ok: bool)
      requires Valid()
      modifies this
      ensures Valid()
      ensures var k := Accepts(old(table), qs);
              && (ok <==> k == |qs|)
              && table == Entered(old(table), qs[..k])
              && queue == old(queue) + qs[..k]
    {
      var i := 0;
      while i < |qs|
        invariant 0 <= i <= |qs| && Valid()
        invariant Accepts(old(table), qs) == i + Accepts(table, qs[i..])
        invariant table == Entered(old(table), qs[..i])
        invariant queue == old(queue) + qs[..i]
      {
        assert qs[..i + 1] == qs[..i] + [qs[i]];
        var added := Add(qs[i]);
        if !added {
          return false;
        }
        i := i + 1;
      }
      return true;
    }

    /** TensorQueue::FinalizeTensorQueue: the callback of every accepted tensor is called, once. */
    method Finalize() returns (finished: seq<string>)
      requires Valid()
      modifies this
      ensures Valid() && table == map[] && queue == []
      ensures Distinct(finished) && forall n :: n in finished <==> n in old(table)
    {
      finished := [];
      var left := table.Keys;
      while left != {}
        invariant left <= table.Keys && table == old(table) && queue == old(queue)
        invariant Distinct(finished) && forall n :: n in finished <==> n in table && n !in left
        decreases |left|
      {
        var n :| n in left;
        finished := finished + [n];
        left := left - {n};
      }
      table := map[];
      while queue != []
        invariant table == map[]
        invariant forall n :: n in finished <==> n in old(table)
        decreases |queue|
      {
        queue := queue[1..];
      }
    }

    /** TensorQueue::GetTensorEntriesFromResponse: it hands out the entries of a response, in
        order, and takes them out of the table. It fails exactly when a name is not there, or no
        longer there because the response names it twice. */
    method GetEntries(response: Response) returns (ok: bool, entries: seq<Params>)
      modifies this`table
      ensures ok <==> Distinct(response.names) && forall n :: n in response.names ==> n in old(table)
      ensures ok ==> |entries| == |response.names| && forall i :: 0 <= i < |entries| ==>
                response.names[i] in old(table) && entries[i] == old(table)[response.names[i]]
      ensures ok ==> table == old(table) - set n | n in response.names
    {
      entries := [];
      var i := 0;
      var names := response.names;
      while i < |names|
        invariant 0 <= i <= |names| && |entries| == i
        invariant Distinct(names[..i]) && forall j :: 0 <= j < i ==>
                    names[j] in old(table) && entries[j] == old(table)[names[j]]
        invariant table == old(table) - set n | n in names[..i]
      {
        var n := names[i];
        if n !in table {
          assert n in names[..i] || n !in old(table);
          return false, entries;
        }
        assert names[..i + 1] == names[..i] + [n];
        entries := entries + [table[n]];
        table := table - {n};
        i := i + 1;
      }
      assert names[..i] == names;
      ok := true;
    }

    /** The loop of RunLoopOnce over a response list, as far as PerformOperation takes entries from
        the tensor table. It succeeds exactly when every name is there, once. */
    method Perform(responses: seq<Response>) returns (ok: bool)
      modifies this`table
      ensures ok <==> CanPerform(old(table), responses)
      ensures ok ==> table == Performed(old(table), responses)
    {
      for i := 0 to |responses|
        invariant CanPerform(old(table), responses[..i]) && table == Performed(old(table), responses[..i])
      {
        PerformNext(old(table), responses, i);
        var found, _ := GetEntries(responses[i]);
        if !found {
          if CanPerform(old(table), responses) { PerformPrefix(old(table), responses, i + 1); }
          return false;
        }
      }
      assert responses[..|responses|] == responses;
      ok := true;
    }

    /** TensorQueue::PopMessagesFromQueue. */
    method PopMessages(buffer: seq<Request>) returns (out: seq<Request>)
      modifies this`queue
      ensures Valid() && queue == [] && out == buffer + old(queue)
    {
      out := buffer;
      while queue != []
        invariant out + queue == buffer + old(queue)
        decreases |queue|
      {
        out := out + [queue[0]];
        queue := queue[1..];
      }
    }

    /** TensorQueue::PushMessagesToQueue. */
    method PushMessages(messages: seq<Request>)
      modifies this`queue
      ensures queue == old(queue) + messages
    {
      var rest := messages;
      while rest != []
        invariant queue + rest == old(queue) + messages
        decreases |rest|
      {
        queue := queue + [rest[0]];
        rest := rest[1..];
      }
    }
  }
}
