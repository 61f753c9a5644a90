/**
 The subscription table of the MQTT carrier: fixed NUL-terminated entries, filled in order and compacted in
 place. Topics are compared as C strings, so a topic with an embedded NUL is stored under its truncation.
 */
module FilterTable {
  import opened Basics
  import opened Sets

  const CAPACITY: nat := 4

  const NUL: Byte := 0

  /** The bytes before the first NUL, as `strlen` sees a stored entry. */
  function CString(topic: Bytes): (s: Bytes)
    ensures |s| <= |topic| && NUL !in s && s == topic[..|s|]
    ensures NUL !in topic ==> s == topic
    ensures NUL in topic ==> |s| < |topic| && topic[|s|] == NUL
  {
    if topic == [] || topic[0] == NUL then [] else [topic[0]] + CString(topic[1..])
  }

  /** The list after adding, as the carrier does it: a match on the whole topic, else the truncation at the end. */
  function Added(q: seq<Bytes>, topic: Bytes): seq<Bytes> {
    if topic in q || |q| >= CAPACITY then q else q + [CString(topic)]
  }

  /** The list without the first occurrence. */
  function Removed(q: seq<Bytes>, topic: Bytes): seq<Bytes> {
    if q == [] then [] else if q[0] == topic then q[1..] else [q[0]] + Removed(q[1..], topic)
  }

  /** Adding keeps the table duplicate-free exactly when the truncation is new or nothing is added. */
  lemma AddedDistinct(q: seq<Bytes>, topic: Bytes)
    requires Distinct(q) && |q| <= CAPACITY
    ensures |Added(q, topic)| <= CAPACITY
    ensures Distinct(Added(q, topic)) <==> CString(topic) !in q || topic in q || |q| == CAPACITY
    ensures NUL !in topic ==> Distinct(Added(q, topic))
    ensures q <= Added(q, topic)
  {
    var s := CString(topic);
    if !(topic in q || |q| >= CAPACITY) && s in q {
      var i :| 0 <= i < |q| && q[i] == s;
      assert Added(q, topic)[i] == Added(q, topic)[|q|];
    }
  }

  /** A topic with an embedded NUL added twice is stored twice. */
  lemma TruncationDuplicates()
    ensures var topic: Bytes := [97, NUL, 98];
            Added(Added([], topic), topic) == [[97], [97]] && !Distinct(Added(Added([], topic), topic))
  {
    var topic: Bytes := [97, NUL, 98];
    assert CString(topic[1..]) == [];
    assert CString(topic) == [97];
    var twice := Added(Added([], topic), topic);
    assert twice[0] == twice[1];
  }

  /** Removing keeps the order of the others. */
  lemma {:induction false} RemovedAt(q: seq<Bytes>, topic: Bytes, i: nat)
    requires i < |q| && q[i] == topic && forall j :: 0 <= j < i ==> q[j] != topic
    ensures Removed(q, topic) == q[..i] + q[i + 1..]
  {
    if i > 0 {
      RemovedAt(q[1..], topic, i - 1);
      assert q[..i] == [q[0]] + q[1..][..i - 1];
      assert q[i + 1..] == q[1..][i..];
    }
  }

  lemma {:induction false} RemovedAbsent(q: seq<Bytes>, topic: Bytes)
    requires topic !in q
    ensures Removed(q, topic) == q
  {
    if q != [] {
      RemovedAbsent(q[1..], topic);
    }
  }

  lemma RemovedDistinct(q: seq<Bytes>, topic: Bytes)
    requires Distinct(q)
    ensures Distinct(Removed(q, topic)) && topic !in Removed(q, topic)
    ensures forall t :: t != topic ==> (t in Removed(q, topic) <==> t in q)
  {
    if topic in q {
      var i :| 0 <= i < |q| && q[i] == topic;
      RemovedAt(q, topic, i);
      hide Removed;
      WithoutDistinct(q, i);
    } else {
      RemovedAbsent(q, topic);
    }
  }

  lemma WithoutDistinct(q: seq<Bytes>, i: nat)
    requires Distinct(q) && i < |q|
    ensures Distinct(q[..i] + q[i + 1..]) && q[i] !in q[..i] + q[i + 1..]
    ensures forall t :: t != q[i] ==> (t in q[..i] + q[i + 1..] <==> t in q)
  {
    var r := q[..i] + q[i + 1..];
    assert forall j :: 0 <= j < |r| ==> r[j] == if j < i then q[j] else q[j + 1];
    forall t | t != q[i] && t in q ensures t in r {
      var j :| 0 <= j < |q| && q[j] == t;
      assert t == if j < i then r[j] else r[j - 1];
    }
  }

  /** Subscribing and unsubscribing a new topic leaves the table as it was. */
  lemma RemoveUndoesAdd(q: seq<Bytes>, topic: Bytes)
    requires NUL !in topic && topic !in q && |q| < CAPACITY
    ensures Removed(Added(q, topic), topic) == q
  {
    var r := q + [topic];
    assert r[|q|] == topic;
    RemovedAt(r, topic, |q|);
    assert r[..|q|] + r[|q| + 1..] == q;
  }

  class Table {
    const entries: array<Bytes>
    var count: nat
    /** No topic with an embedded NUL was added since the table was last cleared. */
    ghost var plain: bool

    ghost predicate Valid()
      reads this, entries
    {
      && entries.Length == CAPACITY && count <= CAPACITY
      && (forall i :: 0 <= i < count ==> NUL !in entries[i])
      && (plain ==> Distinct(entries[..count]))
    }

    ghost function Contents(): seq<Bytes>
      reads this, entries
      requires Valid()
    {
      entries[..count]
    }

    constructor ()
      ensures Valid() && Contents() == [] && fresh(entries) && plain
    {
      entries := new Bytes[CAPACITY](_ => []);
      count, plain := 0, true;
    }

    method Clear()
      requires Valid()
      modifies this
      ensures Valid() && Contents() == [] && plain
    {
      count, plain := 0, true;
    }

    /** The entry whose C string is the whole topic, or `count`. */
    method Find(topic: Bytes) returns (index: nat)
      requires Valid()
      ensures index <= count
      ensures index < count ==> entries[index] == topic && forall j :: 0 <= j < index ==> entries[j] != topic
      ensures index == count <==> topic !in Contents()
    {
      index := 0;
      while index < count && entries[index] != topic
        invariant 0 <= index <= count
        invariant forall j :: 0 <= j < index ==> entries[j] != topic
      {
        index := index + 1;
      }
    }

    /** Reserves an entry for the topic; a full table refuses a new one. */
    method Add(topic: Bytes) returns (ok: bool)
      requires Valid()
      modifies this, entries
      ensures Valid() && Contents() == Added(old(Contents()), topic)
      ensures ok == (topic in old(Contents()) || |old(Contents())| < 4)
      ensures topic in old(Contents()) || |old(Contents())| == 4 ==> Contents() == old(Contents())
      ensures topic !in old(Contents()) && |old(Contents())| < 4 ==>
                exists stored :: Contents() == old(Contents()) + [stored] && stored <= topic && 0 !in stored
                  && (stored == topic || topic[|stored|] == 0)
      ensures plain == (old(plain) && NUL !in topic)
    {
      ghost var before := Contents();
      plain := plain && NUL !in topic;
      if plain {
        AddedDistinct(before, topic);
      }
      var index := Find(topic);
      if index == count {
        if count >= CAPACITY {
          return false;
        }
        entries[index] := CString(topic);
        count := count + 1;
        assert Contents() == before + [CString(topic)];
      }
      ok := true;
    }

    /** Moves every later entry down by one over the removed one. */
    method Remove(topic: Bytes) returns (ok: bool)
      requires Valid()
      modifies this, entries
      ensures Valid() && ok == (topic in old(Contents())) && Contents() == Removed(old(Contents()), topic)
      ensures plain == old(plain)
    {
      ghost var before := Contents();
      if plain {
        RemovedDistinct(before, topic);
      }
      var index := Find(topic);
      if index == count {
        RemovedAbsent(before, topic);
        return false;
      }
      RemovedAt(before, topic, index);
      assert before[..index] == entries[..index] && before[index + 1..] == entries[index + 1..count];
      ShiftDown(index);
      ghost var kept := entries[..count - 1];
      entries[count - 1] := [];
      count := count - 1;
      assert entries[..count] == kept == Removed(before, topic);
      ok := true;
    }

    method ShiftDown(index: nat)
      requires Valid() && index < count
      modifies entries
      ensures forall i :: 0 <= i < count ==> NUL !in entries[i]
      ensures entries[..count - 1] == old(entries[..index]) + old(entries[index + 1..count])
    {
      ghost var before := entries[..count];
      var move := index + 1;
      while move < count
        invariant index + 1 <= move <= count
        invariant forall j :: 0 <= j < index ==> entries[j] == before[j]
        invariant forall j :: index <= j < move - 1 ==> entries[j] == before[j + 1]
        invariant forall j :: move - 1 <= j < count ==> entries[j] == before[j]
      {
        entries[move - 1] := entries[move];
        move := move + 1;
      }
    }
  }
}
