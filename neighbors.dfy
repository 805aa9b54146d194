/** The neighbour list a node keeps (struct neighbor_t and the `neighbors`
    array of both generations): slot `id - 1` is NULL or the neighbour
    whose node id is `id`, stamped with the time it was last heard from. */
module Neighbors {
  import opened CLib
  import opened SendResult

  /** struct neighbor_t: the neighbour's node id and the `time()` of its
      last HELLO. */
  datatype Neighbor = Neighbor(nodeId: U16, lastSeen: int)

  /** The layout the HELLO handlers build: every non-empty slot `i` holds
      the neighbour with id `i + 1`. */
  ghost predicate SlotsHoldOwnIds(neighbors: seq<Option<Neighbor>>)
  {
    forall i :: 0 <= i < |neighbors| && neighbors[i].Some? ==> neighbors[i].value.nodeId == i + 1
  }

  /** The ids of the neighbours present, in slot order. */
  function PresentIds(neighbors: seq<Option<Neighbor>>): (r: seq<U16>)
    ensures forall id :: id in r <==> 1 <= id <= |neighbors| && neighbors[id - 1].Some? && neighbors[id - 1].value.nodeId == id
    requires SlotsHoldOwnIds(neighbors)
  {
    if neighbors == [] then []
    else
      var front := neighbors[..|neighbors| - 1];
      assert SlotsHoldOwnIds(front) by {
        forall i | 0 <= i < |front| && front[i].Some? ensures front[i].value.nodeId == i + 1 {
          assert front[i] == neighbors[i];
        }
      }
      var last := neighbors[|neighbors| - 1];
      PresentIds(front) + (if last.Some? then [last.value.nodeId] else [])
  }

  /** The neighbour-candidate filter of find_random_neighbor, for slot `i`:
      id `i + 1` is not on the ignore list (when there is one), the slot
      holds a neighbour, and id `i + 1` is not on the path walked so far. */
  predicate Qualifies(neighbors: seq<Option<Neighbor>>, i: nat, path: seq<U16>, ignore: Option<seq<U16>>)
    requires i < |neighbors|
  {
    && !(ignore.Some? && (i + 1) in ignore.value)
    && neighbors[i].Some?
    && (i + 1) !in path
  }

  /** The neighbours find_random_neighbor collects from the first `n`
      slots, in slot order. */
  function Candidates(neighbors: seq<Option<Neighbor>>, n: nat, path: seq<U16>, ignore: Option<seq<U16>>): (r: seq<Neighbor>)
    requires n <= |neighbors|
    ensures |r| <= n
  {
    if n == 0 then []
    else
      Candidates(neighbors, n - 1, path, ignore) +
      (if Qualifies(neighbors, n - 1, path, ignore) then [neighbors[n - 1].value] else [])
  }

  /** A neighbour is a candidate exactly when a qualifying slot holds it. */
  lemma {:induction false} CandidatesExactly(neighbors: seq<Option<Neighbor>>, n: nat, path: seq<U16>, ignore: Option<seq<U16>>)
    requires n <= |neighbors|
    ensures forall nb :: nb in Candidates(neighbors, n, path, ignore) <==>
      exists i :: 0 <= i < n && Qualifies(neighbors, i, path, ignore) && neighbors[i] == Some(nb)
  {
    if n > 0 {
      CandidatesExactly(neighbors, n - 1, path, ignore);
    }
  }

  /** A slot without a neighbour among the first `n` (the node's own slot,
      say) leaves room for at most `n - 1` candidates. */
  lemma {:induction false} CandidatesBound(neighbors: seq<Option<Neighbor>>, n: nat, path: seq<U16>, ignore: Option<seq<U16>>, empty: nat)
    requires n <= |neighbors| && empty < n && neighbors[empty].None?
    ensures |Candidates(neighbors, n, path, ignore)| <= n - 1
  {
    if empty < n - 1 {
      CandidatesBound(neighbors, n - 1, path, ignore, empty);
    }
  }

  /** With slots holding their own ids, putting a candidate's id on the
      ignore list removes exactly that candidate: the list of candidates
      gets one shorter. */
  lemma {:induction false} IgnoringCandidateDropsIt(neighbors: seq<Option<Neighbor>>, n: nat, path: seq<U16>, ignore: seq<U16>, c: Neighbor)
    requires n <= |neighbors| && SlotsHoldOwnIds(neighbors)
    requires c in Candidates(neighbors, n, path, Some(ignore))
    ensures |Candidates(neighbors, n, path, Some(ignore + [c.nodeId]))| == |Candidates(neighbors, n, path, Some(ignore))| - 1
  {
    var i := n - 1;
    var before := Candidates(neighbors, i, path, Some(ignore));
    if Qualifies(neighbors, i, path, Some(ignore)) && neighbors[i].value == c {
      assert c.nodeId == i + 1;
      IgnoringOutsideKeeps(neighbors, i, path, ignore, c.nodeId);
    } else {
      assert c in before;
      IgnoringCandidateDropsIt(neighbors, i, path, ignore, c);
      if Qualifies(neighbors, i, path, Some(ignore)) {
        assert neighbors[i].value.nodeId == i + 1;
        CandidatesExactly(neighbors, i, path, Some(ignore));
        var j :| 0 <= j < i && Qualifies(neighbors, j, path, Some(ignore)) && neighbors[j] == Some(c);
        assert c.nodeId == j + 1;
      }
    }
  }

  /** Ignoring an id beyond the first `n` slots changes nothing there. */
  lemma {:induction false} IgnoringOutsideKeeps(neighbors: seq<Option<Neighbor>>, n: nat, path: seq<U16>, ignore: seq<U16>, id: U16)
    requires n <= |neighbors| && id > n
    ensures Candidates(neighbors, n, path, Some(ignore + [id])) == Candidates(neighbors, n, path, Some(ignore))
  {
    if n > 0 {
      IgnoringOutsideKeeps(neighbors, n - 1, path, ignore, id);
      assert (n in ignore + [id]) <==> n in ignore;
    }
  }

  /** The id find_random_neighbor returns: 0 when there is no candidate,
      otherwise that of candidate `random % count`. */
  function ChooseNeighbor(candidates: seq<Neighbor>, random: nat): (r: U16)
    ensures candidates == [] ==> r == 0
    ensures candidates != [] ==> r in set c | c in candidates :: c.nodeId
  {
    if candidates == [] then 0 else candidates[random % |candidates|].nodeId
  }

  /** With slots holding their own ids, find_random_neighbor returns 0
      exactly when there is no candidate, and any other id it returns is a
      current neighbour, not on the ignore list, and not on the path. */
  lemma ChosenNeighborQualifies(neighbors: seq<Option<Neighbor>>, n: nat, path: seq<U16>, ignore: Option<seq<U16>>, random: nat)
    requires n <= |neighbors| && SlotsHoldOwnIds(neighbors)
    ensures var id := ChooseNeighbor(Candidates(neighbors, n, path, ignore), random);
      && (id == 0 <==> Candidates(neighbors, n, path, ignore) == [])
      && (id != 0 ==>
           && 1 <= id <= n && neighbors[id - 1].Some? && neighbors[id - 1].value.nodeId == id
           && !(ignore.Some? && id in ignore.value) && id !in path)
  {
    var cs := Candidates(neighbors, n, path, ignore);
    CandidatesExactly(neighbors, n, path, ignore);
    if cs != [] {
      var c := cs[random % |cs|];
      assert c in cs;
      var i :| 0 <= i < n && Qualifies(neighbors, i, path, ignore) && neighbors[i] == Some(c);
      assert c.nodeId == i + 1;
    }
  }

  /** The neighbour list after a HELLO from `id` heard at `now`: the slot of
      `id` holds a neighbour last seen now, created with that id if the slot
      was empty; no other slot changes. */
  function Refreshed(neighbors: seq<Option<Neighbor>>, id: U16, now: int): (r: seq<Option<Neighbor>>)
    requires 1 <= id <= |neighbors|
    ensures |r| == |neighbors|
  {
    var nb := neighbors[id - 1];
    neighbors[id - 1 := Some(Neighbor(if nb.Some? then nb.value.nodeId else id, now))]
  }

  /** A HELLO keeps every slot holding its own id, and for a neighbour
      already known it changes nothing but `last_seen`. */
  lemma RefreshKeepsLayout(neighbors: seq<Option<Neighbor>>, id: U16, now: int)
    requires 1 <= id <= |neighbors|
    ensures SlotsHoldOwnIds(neighbors) ==> SlotsHoldOwnIds(Refreshed(neighbors, id, now))
    ensures Refreshed(neighbors, id, now)[id - 1].Some?
    ensures Refreshed(neighbors, id, now)[id - 1].value.lastSeen == now
    ensures neighbors[id - 1].None? ==> Refreshed(neighbors, id, now)[id - 1].value.nodeId == id
    ensures neighbors[id - 1].Some? ==> Refreshed(neighbors, id, now)[id - 1] == Some(neighbors[id - 1].value.(lastSeen := now))
    ensures forall i :: 0 <= i < |neighbors| && i != id - 1 ==> Refreshed(neighbors, id, now)[i] == neighbors[i]
  {
  }

  /** The ignore list as find_random_neighbor sees it: none for a NULL
      list, otherwise its first `len` entries. */
  function IgnoreList(list: Option<seq<U16>>, len: nat): Option<seq<U16>>
    requires list.Some? ==> len <= |list.value|
  {
    if list.None? then None else Some(list.value[..len])
  }

  /** One of the inner scans of find_random_neighbor: is `x` among the
      first `len` entries of `list`? */
  method ListContains(list: seq<U16>, len: nat, x: int) returns (found: bool)
    requires len <= |list|
    ensures found <==> x in list[..len]
  {
    var j := 0;
    while j < len
      invariant j <= len
      invariant x !in list[..j]
    {
      if list[j] == x {
        return true;
      }
      assert list[..j + 1] == list[..j] + [list[j]];
      j := j + 1;
    }
    return false;
  }

  /** find_random_neighbor over the first `count` slots: collect the
      candidates in slot order, then pick candidate `random % counter`
      (`random` stands for the value of `rand()`), or return 0 when there
      is none. */
  method FindRandomNeighbor(neighbors: array<Option<Neighbor>>, count: U16, path: seq<U16>, pathLen: U16,
                            ignoreList: Option<seq<U16>>, ignoreLen: U16, random: nat) returns (id: U16)
    requires count as int <= neighbors.Length && pathLen as int <= |path|
    requires ignoreList.Some? ==> ignoreLen as int <= |ignoreList.value|
    ensures id == ChooseNeighbor(Candidates(neighbors[..], count as nat, path[..pathLen], IgnoreList(ignoreList, ignoreLen as nat)), random)
  {
    ghost var ignore := IgnoreList(ignoreList, ignoreLen as nat);
    var candidates: seq<Neighbor> := [];
    var i: nat := 0;
    while i < count as nat
      invariant i <= count as nat
      invariant candidates == Candidates(neighbors[..], i, path[..pathLen], ignore)
    {
      var ignored := false;
      if ignoreList.Some? {
        ignored := ListContains(ignoreList.value, ignoreLen as nat, i + 1);
      }
      if !ignored && neighbors[i].Some? {
        var onPath := ListContains(path, pathLen as nat, i + 1);
        if !onPath {
          candidates := candidates + [neighbors[i].value];
        }
      }
      i := i + 1;
    }
    if |candidates| == 0 {
      return 0;
    }
    return candidates[random % |candidates|].nodeId;
  }

  /** One round of the bogo loop: when the choice made with `tried` on the
      ignore list is a neighbour, it has not been tried before, it
      qualifies, and ignoring it too leaves one candidate fewer. */
  lemma BogoStep(neighbors: seq<Option<Neighbor>>, n: nat, path: seq<U16>, tried: seq<U16>, random: nat)
    requires n <= |neighbors| && SlotsHoldOwnIds(neighbors)
    requires ChooseNeighbor(Candidates(neighbors, n, path, Some(tried)), random) != 0
    ensures var id := ChooseNeighbor(Candidates(neighbors, n, path, Some(tried)), random);
      && id !in tried && 1 <= id <= n && neighbors[id - 1].Some? && id !in path
      && |Candidates(neighbors, n, path, Some(tried + [id]))| == |Candidates(neighbors, n, path, Some(tried))| - 1
  {
    var cs := Candidates(neighbors, n, path, Some(tried));
    ChosenNeighborQualifies(neighbors, n, path, Some(tried), random);
    var c := cs[random % |cs|];
    IgnoringCandidateDropsIt(neighbors, n, path, tried, c);
  }

  /** The ids one round of hello_poll_thread sends a HELLO to: the known
      ids other than the node's own, in list order. */
  function HelloTargets(known: seq<U16>, self: U16): (r: seq<U16>)
    ensures |r| <= |known|
  {
    if known == [] then []
    else
      HelloTargets(known[..|known| - 1], self) +
      (if known[|known| - 1] != self then [known[|known| - 1]] else [])
  }

  /** Every known id except the node's own gets a HELLO, and nothing else
      does; without the own id on the list, every id gets one in order. */
  lemma {:induction false} HelloTargetsExactly(known: seq<U16>, self: U16)
    ensures forall id :: id in HelloTargets(known, self) <==> id in known && id != self
    ensures self !in known ==> HelloTargets(known, self) == known
  {
    if known != [] {
      var front := known[..|known| - 1];
      HelloTargetsExactly(front, self);
      assert known == front + [known[|known| - 1]];
    }
  }

  /** The ids the bogo loop has tried: no id twice, and each one a
      neighbour among the first `n` slots that is not on `path`. */
  ghost predicate TriedOnce(neighbors: seq<Option<Neighbor>>, n: nat, path: seq<U16>, tried: seq<U16>)
    requires n <= |neighbors|
  {
    && (forall i, j :: 0 <= i < j < |tried| ==> tried[i] != tried[j])
    && (forall k :: 0 <= k < |tried| ==> 1 <= tried[k] <= n && neighbors[tried[k] - 1].Some? && tried[k] !in path)
  }

  /** When no candidate is left with `tried` on the ignore list, every
      neighbour among the first `n` slots that is not on the path has been
      tried. */
  lemma {:induction false} NoCandidatesLeft(neighbors: seq<Option<Neighbor>>, n: nat, path: seq<U16>, tried: seq<U16>)
    requires n <= |neighbors| && Candidates(neighbors, n, path, Some(tried)) == []
    ensures forall i :: 0 <= i < n && neighbors[i].Some? && (i + 1) !in path ==> (i + 1) in tried
  {
    if n > 0 {
      NoCandidatesLeft(neighbors, n - 1, path, tried);
    }
  }

  /** The hops before the holder of a packet route at `step` once the
      route is resized to `step + 2` hops: what a bogo search avoids. */
  function Walked(path: seq<U16>, step: nat): (w: seq<U16>)
    ensures |w| == step
    ensures forall k :: 0 <= k < step && k < |path| ==> w[k] == path[k]
  {
    Resized(path, step + 2)[..step]
  }

  /** What a finished bogo search promises about its tries `tried`, over
      the first `n` slots of the table and the hops `walked` before the
      holder: each neighbour is tried at most once; every try but a
      successful last one failed under `reading`, and a successful last
      one came through; giving up leaves no candidate. Read as written
      that is at most one try, which succeeds exactly when there was
      one. */
  ghost predicate BogoOutcome(neighbors: seq<Option<Neighbor>>, n: nat, walked: seq<U16>, tried: seq<U16>,
                              cameThrough: bool, reading: Reading, sendResult: U16 -> U16)
  {
    && n <= |neighbors|
    && TriedOnce(neighbors, n, walked, tried)
    && (cameThrough ==> tried != [] && CameThrough(reading, sendResult(tried[|tried| - 1])))
    && AllFailed(if cameThrough then tried[..|tried| - 1] else tried, reading, sendResult)
    && (!cameThrough ==> Candidates(neighbors, n, walked, Some(tried)) == [])
    && (reading == AsWritten ==> |tried| <= 1 && (cameThrough <==> tried != []))
  }

  /** What holds at the head of the bogo loop: `next` is the pick made
      with `tried` on the ignore list (the pick number `|tried|`, so with
      `random(|tried|)`), the ids tried so far were each tried once, and
      they and the candidates left fit in the `n - 1` slots other than the
      node's own. */
  ghost predicate BogoLoop(neighbors: seq<Option<Neighbor>>, n: nat, path: seq<U16>, tried: seq<U16>, next: U16, random: nat -> nat)
  {
    && n <= |neighbors|
    && next == ChooseNeighbor(Candidates(neighbors, n, path, Some(tried)), random(|tried|))
    && |tried| + |Candidates(neighbors, n, path, Some(tried))| <= n - 1
    && TriedOnce(neighbors, n, path, tried)
  }

  /** The first pick of the bogo loop, with an empty ignore list, starts the
      loop when the node's own slot `self` is empty. */
  lemma BogoStart(neighbors: seq<Option<Neighbor>>, n: nat, path: seq<U16>, next: U16, random: nat -> nat, self: nat)
    requires n <= |neighbors| && self < n && neighbors[self].None?
    requires next == ChooseNeighbor(Candidates(neighbors, n, path, Some([])), random(0))
    ensures BogoLoop(neighbors, n, path, [], next, random)
  {
    CandidatesBound(neighbors, n, path, Some([]), self);
  }

  /** A failed try of `next` keeps the loop invariant for the next pick,
      with one candidate fewer; the ignore list written so far
      (`|tried| + 1` entries) still has room for that pick. */
  lemma BogoAdvance(neighbors: seq<Option<Neighbor>>, n: nat, path: seq<U16>, tried: seq<U16>, next: U16, random: nat -> nat)
    requires SlotsHoldOwnIds(neighbors) && BogoLoop(neighbors, n, path, tried, next, random) && next != 0
    ensures BogoLoop(neighbors, n, path, tried + [next],
                     ChooseNeighbor(Candidates(neighbors, n, path, Some(tried + [next])), random(|tried| + 1)), random)
    ensures |tried| + 1 < n
    ensures |Candidates(neighbors, n, path, Some(tried + [next]))| < |Candidates(neighbors, n, path, Some(tried))|
  {
    BogoStep(neighbors, n, path, tried, random(|tried|));
    var tried' := tried + [next];
    assert forall k :: 0 <= k < |tried| ==> tried'[k] == tried[k];
  }

  /** A pick of 0 ends the loop: no candidate is left, so every neighbour
      not on the path has been tried. */
  lemma BogoEnd(neighbors: seq<Option<Neighbor>>, n: nat, path: seq<U16>, tried: seq<U16>, random: nat -> nat)
    requires SlotsHoldOwnIds(neighbors) && BogoLoop(neighbors, n, path, tried, 0, random)
    ensures Candidates(neighbors, n, path, Some(tried)) == []
    ensures forall i :: 0 <= i < n && neighbors[i].Some? && (i + 1) !in path ==> (i + 1) in tried
  {
    ChosenNeighborQualifies(neighbors, n, path, Some(tried), random(|tried|));
    NoCandidatesLeft(neighbors, n, path, tried);
  }
}
