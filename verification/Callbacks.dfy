/** The list of data callbacks of `data_builder.c` as a value: sorted by priority, each function once. */
module Callbacks {
  import opened Machine
  import opened SensorStatus

  const MAX_DATA_CB := 20

  /** `struct process_t`; a function is known by a number, a mask of new data by its set of sensors. */
  datatype Process = Process(func: int, priority: int32, dataRequired: set<Sensor>)

  ghost predicate Sorted(s: seq<Process>) {
    forall i, j :: 0 <= i < j < |s| ==> s[i].priority < s[j].priority
  }

  ghost predicate UniqueFuncs(s: seq<Process>) {
    forall i, j :: 0 <= i < j < |s| ==> s[i].func != s[j].func
  }

  /** Neither the function nor the priority of `p` is taken. */
  ghost predicate Free(s: seq<Process>, p: Process) {
    forall q :: q in s ==> q.func != p.func && q.priority != p.priority
  }

  /** The list with `p` in its place by priority. */
  function Insert(s: seq<Process>, p: Process): (r: seq<Process>)
    ensures |r| == |s| + 1
  {
    if s == [] || s[0].priority >= p.priority then [p] + s
    else [s[0]] + Insert(s[1..], p)
  }

  /** The list without the first callback to `func`. */
  function Remove(s: seq<Process>, func: int): (r: seq<Process>)
    ensures |r| <= |s|
  {
    if s == [] then []
    else if s[0].func == func then s[1..]
    else [s[0]] + Remove(s[1..], func)
  }

  lemma {:induction false} InsertContents(s: seq<Process>, p: Process)
    ensures forall q :: q in Insert(s, p) <==> q == p || q in s
  {
    if s != [] && s[0].priority < p.priority {
      InsertContents(s[1..], p);
      assert s == [s[0]] + s[1..];
    }
  }

  lemma {:induction false} InsertKeepsOrder(s: seq<Process>, p: Process)
    requires Sorted(s) && UniqueFuncs(s) && Free(s, p)
    ensures Sorted(Insert(s, p)) && UniqueFuncs(Insert(s, p))
  {
    if s != [] && s[0].priority < p.priority {
      assert Free(s[1..], p) && s[0] in s;
      InsertKeepsOrder(s[1..], p);
      InsertContents(s[1..], p);
      InFront(s[0], Insert(s[1..], p));
    } else {
      InFront(p, s);
    }
  }

  /** A callback below all others in front of them. */
  lemma InFront(p: Process, s: seq<Process>)
    requires Sorted(s) && UniqueFuncs(s)
    requires s != [] ==> p.priority < s[0].priority
    requires forall q :: q in s ==> p.func != q.func
    ensures Sorted([p] + s) && UniqueFuncs([p] + s)
  {
    forall j | 0 <= j < |s|
      ensures p.priority < s[j].priority && p.func != s[j].func
    {
      assert s[j] in s;
    }
  }

  lemma {:induction false} RemoveContents(s: seq<Process>, func: int)
    requires UniqueFuncs(s)
    ensures forall q :: q in Remove(s, func) <==> q in s && q.func != func
  {
    if s != [] {
      assert s == [s[0]] + s[1..];
      if s[0].func != func {
        RemoveContents(s[1..], func);
      }
    }
  }

  lemma {:induction false} RemoveKeepsOrder(s: seq<Process>, func: int)
    requires Sorted(s) && UniqueFuncs(s)
    ensures Sorted(Remove(s, func)) && UniqueFuncs(Remove(s, func))
  {
    if s != [] && s[0].func != func {
      RemoveKeepsOrder(s[1..], func);
      RemoveContents(s[1..], func);
      var r := Remove(s[1..], func);
      forall j | 0 <= j < |r|
        ensures s[0].priority < r[j].priority && s[0].func != r[j].func
      {
        assert r[j] in r;
      }
    }
  }

  /** A sorted list is determined by what is in it: the order of registration leaves no trace. */
  lemma {:induction false} SortedIsCanonical(s: seq<Process>, t: seq<Process>)
    requires Sorted(s) && Sorted(t) && forall q :: q in s <==> q in t
    ensures s == t
  {
    if t != [] {
      assert t[0] in s;
    }
    if s != [] {
      assert s[0] in t;
      assert s[0] == t[0];
      forall q
        ensures q in s[1..] <==> q in t[1..]
      {
        Tail(s, q);
        Tail(t, q);
      }
      SortedIsCanonical(s[1..], t[1..]);
    }
  }

  lemma Tail(s: seq<Process>, q: Process)
    requires Sorted(s) && s != []
    ensures q in s[1..] <==> q in s && q != s[0]
  {
    assert s == [s[0]] + s[1..];
  }

  /** Unregistering a new callback restores the list it was put into. */
  lemma {:induction false} UnregisterUndoesRegister(s: seq<Process>, p: Process)
    requires Sorted(s) && UniqueFuncs(s) && Free(s, p)
    ensures Remove(Insert(s, p), p.func) == s
  {
    var r := Insert(s, p);
    InsertKeepsOrder(s, p);
    InsertContents(s, p);
    RemoveKeepsOrder(r, p.func);
    RemoveContents(r, p.func);
    SortedIsCanonical(Remove(r, p.func), s);
  }

  /** Registering a callback again after it was taken out restores the list, too. */
  lemma {:induction false} RegisterUndoesUnregister(s: seq<Process>, p: Process)
    requires Sorted(s) && UniqueFuncs(s) && p in s
    ensures Free(Remove(s, p.func), p) && Insert(Remove(s, p.func), p) == s
  {
    var r := Remove(s, p.func);
    RemoveKeepsOrder(s, p.func);
    RemoveContents(s, p.func);
    InsertKeepsOrder(r, p);
    InsertContents(r, p);
    SortedIsCanonical(Insert(r, p), s);
  }

  /** Two registrations commute. */
  lemma {:induction false} RegistrationsCommute(s: seq<Process>, p: Process, q: Process)
    requires Sorted(s) && UniqueFuncs(s) && Free(s, p) && Free(s, q)
    requires p.func != q.func && p.priority != q.priority
    ensures Insert(Insert(s, p), q) == Insert(Insert(s, q), p)
  {
    InsertContents(s, p);
    InsertContents(s, q);
    InsertKeepsOrder(s, p);
    InsertKeepsOrder(s, q);
    InsertContents(Insert(s, p), q);
    InsertContents(Insert(s, q), p);
    InsertKeepsOrder(Insert(s, p), q);
    InsertKeepsOrder(Insert(s, q), p);
    SortedIsCanonical(Insert(Insert(s, p), q), Insert(Insert(s, q), p));
  }

  // ----- where the array code puts and takes -----

  /** Where `Insert` puts `p`. */
  lemma {:induction false} InsertAt(s: seq<Process>, p: Process, k: nat)
    requires k <= |s| && (forall i :: 0 <= i < k ==> s[i].priority < p.priority)
    requires k < |s| ==> s[k].priority >= p.priority
    ensures Insert(s, p) == s[..k] + [p] + s[k..]
  {
    if k > 0 {
      InsertAt(s[1..], p, k - 1);
      assert s[..k] == [s[0]] + s[1..][..k - 1];
    }
  }

  lemma {:induction false} RemoveAt(s: seq<Process>, func: int, k: nat)
    requires k < |s| && s[k].func == func && forall i :: 0 <= i < k ==> s[i].func != func
    ensures Remove(s, func) == s[..k] + s[k + 1..]
  {
    if k > 0 {
      RemoveAt(s[1..], func, k - 1);
      assert s[..k] == [s[0]] + s[1..][..k - 1];
    }
  }

  lemma {:induction false} RemoveNothing(s: seq<Process>, func: int)
    requires forall i :: 0 <= i < |s| ==> s[i].func != func
    ensures Remove(s, func) == s
  {
    if s != [] {
      RemoveNothing(s[1..], func);
    }
  }
}
