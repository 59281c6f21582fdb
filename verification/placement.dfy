/** The committed placement of a table (its external view): which instances
    host each segment, and the inverse index from servers to the segments they
    host that the outcome checks are phrased over. */
module Placement {
  import opened Results
  import opened Seqs

  type Instance = string
  type SegmentName = string

  /** Segment name to the set of instances hosting it. */
  type View = map<SegmentName, set<Instance>>

  /** Inverse index: server to the segments it hosts. */
  type ServerIndex = map<Instance, set<SegmentName>>

  /** The segments hosted by instance `v`. */
  function Hosted(view: View, v: Instance): set<SegmentName> {
    set s | s in view && v in view[s]
  }

  /** Placing a fresh segment adds it to exactly the chosen instances' hosted
      sets and leaves every other instance's hosted set as it was. */
  lemma HostedAfterAdd(view: View, s: SegmentName, chosen: set<Instance>, v: Instance)
    requires s !in view
    ensures v in chosen ==> Hosted(view[s := chosen], v) == Hosted(view, v) + {s}
    ensures v in chosen ==> |Hosted(view[s := chosen], v)| == |Hosted(view, v)| + 1
    ensures v !in chosen ==> Hosted(view[s := chosen], v) == Hosted(view, v)
  {
    if v in chosen {
      assert Hosted(view[s := chosen], v) == Hosted(view, v) + {s};
      assert s !in Hosted(view, v);
    } else {
      assert Hosted(view[s := chosen], v) == Hosted(view, v);
    }
  }

  /** Every hosting instance of every segment is one of `servers`. */
  ghost predicate HostsListed(servers: seq<Instance>, view: View) {
    forall s :: s in view ==> view[s] <= Elems(servers)
  }

  /** Reference definition of the inverse index over the listed servers. */
  function InverseIndex(servers: seq<Instance>, view: View): ServerIndex {
    map v | v in Elems(servers) :: Hosted(view, v)
  }

  /** The inverse index is keyed by exactly the listed servers, and segment `s`
      is in server `v`'s set exactly when `v` hosts `s`. */
  lemma InverseIndexIff(servers: seq<Instance>, view: View, v: Instance, s: SegmentName)
    requires v in servers
    ensures v in InverseIndex(servers, view)
    ensures s in InverseIndex(servers, view)[v] <==> s in view && v in view[s]
  {
  }

  /** Builds the server-to-segments map: every listed server starts with an
      empty set, then each segment is added to the set of each server hosting
      it. A hosting server outside the list fails the whole call, as the
      lookup of an absent key does. */
  method ServersToSegments(servers: seq<Instance>, view: View) returns (r: Result<ServerIndex>)
    ensures r.Ok? <==> HostsListed(servers, view)
    ensures r.Ok? ==> r.value.Keys == Elems(servers)
    ensures r.Ok? ==> forall v :: v in r.value ==> r.value[v] == Hosted(view, v)
    ensures r.Ok? ==> r.value == InverseIndex(servers, view)
  {
    var index: ServerIndex := map v | v in Elems(servers) :: {};
    var todo := view.Keys;
    ghost var done: set<SegmentName> := {};
    while todo != {}
      invariant todo + done == view.Keys && todo !! done
      invariant index.Keys == Elems(servers)
      invariant forall t :: t in done ==> view[t] <= Elems(servers)
      invariant forall v :: v in index ==> index[v] == set t | t in done && v in view[t]
      decreases todo
    {
      var s :| s in todo;
      var rest := view[s];
      while rest != {}
        invariant rest <= view[s]
        invariant index.Keys == Elems(servers)
        invariant view[s] - rest <= Elems(servers)
        invariant forall v :: v in index ==>
          index[v] == (set t | t in done && v in view[t]) + (if v in view[s] - rest then {s} else {})
        decreases rest
      {
        var v :| v in rest;
        if v !in index {
          return Err(UnknownServer);
        }
        index := index[v := index[v] + {s}];
        rest := rest - {v};
      }
      done := done + {s};
      todo := todo - {s};
    }
    return Ok(index);
  }

  /** The segments held by a list of servers, unioned from the inverse index. */
  function GroupSegments(index: ServerIndex, group: seq<Instance>): set<SegmentName> {
    set v, s | v in group && v in index && s in index[v] :: s
  }
}
