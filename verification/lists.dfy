/** Singly linked lists threaded through an array of link fields; -1 is NULL. */
module Lists {
  const NULL: int := -1

  function First(s: seq<nat>): int {
    if s == [] then NULL else s[0]
  }

  function After(s: seq<nat>, k: nat): int
    requires k < |s|
  {
    if k + 1 < |s| then s[k + 1] else NULL
  }

  ghost predicate Distinct(s: seq<nat>) {
    forall j, k | 0 <= j < k < |s| :: s[j] != s[k]
  }

  ghost predicate LinkAt(links: seq<int>, s: seq<nat>, k: nat)
    requires k < |s|
  {
    s[k] < |links| && links[s[k]] == After(s, k)
  }

  /** Following the links from head spells out s. */
  ghost predicate Linked(links: seq<int>, head: int, s: seq<nat>) {
    && head == First(s) && Distinct(s) && (forall k | 0 <= k < |s| :: s[k] < |links|)
    && forall k: nat | k < |s| :: LinkAt(links, s, k)
  }

  /** Links outside the list do not matter. */
  lemma LinkedFrame(links: seq<int>, links': seq<int>, head: int, s: seq<nat>)
    requires Linked(links, head, s) && |links'| == |links| && forall x | x in s :: links'[x] == links[x]
    ensures Linked(links', head, s)
  {
    forall k: nat | k < |s|
      ensures LinkAt(links', s, k)
    {
      assert LinkAt(links, s, k);
    }
  }

  lemma Push(links: seq<int>, head: int, s: seq<nat>, x: nat)
    requires Linked(links, head, s) && x !in s && x < |links|
    ensures Linked(links[x := head], x, [x] + s)
  {
    var r, links' := [x] + s, links[x := head];
    forall k: nat | k < |r|
      ensures LinkAt(links', r, k)
    {
      if k > 0 {
        assert LinkAt(links, s, k - 1) && r[k] == s[k - 1];
      }
    }
  }

  lemma Append(links: seq<int>, head: int, s: seq<nat>, x: nat)
    requires Linked(links, head, s) && s != [] && x !in s && x < |links| && links[x] == NULL
    ensures Linked(links[s[|s| - 1] := x], head, s + [x])
  {
    var r := s + [x];
    var links' := links[s[|s| - 1] := x];
    forall k: nat | k < |r|
      ensures LinkAt(links', r, k)
    {
      if k < |s| {
        assert LinkAt(links, s, k);
      }
    }
  }

  function Drop(s: seq<nat>, k: nat): seq<nat>
    requires k < |s|
  {
    s[..k] + s[k + 1..]
  }

  lemma DropHas(s: seq<nat>, k: nat, x: nat)
    requires k < |s| && Distinct(s)
    ensures x in Drop(s, k) <==> x in s && x != s[k]
  {
  }

  lemma DropDistinct(s: seq<nat>, k: nat)
    requires k < |s| && Distinct(s)
    ensures Distinct(Drop(s, k))
  {
  }

  /** The links after the walk to element k has cut it out. */
  function Cut(links: seq<int>, s: seq<nat>, k: nat): seq<int>
    requires k < |s| && forall j | 0 <= j < |s| :: s[j] < |links|
  {
    if k == 0 then links else links[s[k - 1] := links[s[k]]]
  }

  lemma Unlink(links: seq<int>, head: int, s: seq<nat>, k: nat)
    requires Linked(links, head, s) && k < |s|
    ensures Linked(Cut(links, s, k), if k == 0 then links[s[0]] else head, Drop(s, k))
  {
    var links', r := Cut(links, s, k), Drop(s, k);
    DropDistinct(s, k);
    assert LinkAt(links, s, k);
    forall j: nat | j < |r|
      ensures LinkAt(links', r, j)
    {
      assert LinkAt(links, s, if j < k then j else j + 1);
    }
  }
}
