/** The longest chain of calls from main, found by a depth-first search that stops at the first cycle. */
module FrameDepth {
  import opened Common

  type Edges = set<(nat, nat)>

  // ---------------------------------------------------------------- chains

  /** A chain of calls, starting with f. */
  predicate Chain(edges: Edges, f: nat, path: seq<nat>) {
    path != [] && path[0] == f && forall k :: 0 <= k < |path| - 1 ==> (path[k], path[k + 1]) in edges
  }

  predicate Repeats(path: seq<nat>) {
    exists i, j :: 0 <= i < j < |path| && path[i] == path[j]
  }

  /** Some chain from f comes back to a function it already went through. */
  ghost predicate Recursive(edges: Edges, f: nat) {
    exists path :: Chain(edges, f, path) && Repeats(path)
  }

  ghost predicate Longest(edges: Edges, f: nat, depth: nat) {
    && (exists path :: Chain(edges, f, path) && |path| == depth)
    && (forall path :: Chain(edges, f, path) ==> |path| <= depth)
  }

  /** A step in front of a chain. */
  lemma ChainLonger(edges: Edges, f: nat, g: nat, path: seq<nat>)
    requires (f, g) in edges && Chain(edges, g, path)
    ensures Chain(edges, f, [f] + path)
    ensures Repeats(path) ==> Repeats([f] + path)
  {
    if Repeats(path) {
      var i, j :| 0 <= i < j < |path| && path[i] == path[j];
      assert ([f] + path)[i + 1] == ([f] + path)[j + 1];
    }
  }

  /** Going round a cycle makes a chain longer. */
  lemma Pump(edges: Edges, f: nat, path: seq<nat>)
    requires Chain(edges, f, path) && Repeats(path)
    ensures exists longer :: Chain(edges, f, longer) && Repeats(longer) && |longer| > |path|
  {
    var i, j :| 0 <= i < j < |path| && path[i] == path[j];
    var longer := path[..j] + path[i..];
    assert longer[i] == path[i] == longer[j];
    forall k | 0 <= k < |longer| - 1 ensures (longer[k], longer[k + 1]) in edges {
      if k >= j {
        assert longer[k] == path[i + k - j] && longer[k + 1] == path[i + k + 1 - j];
      } else if k == j - 1 {
        assert longer[k + 1] == path[j];
      }
    }
    assert Chain(edges, f, longer);
  }

  lemma {:induction false} PumpTo(edges: Edges, f: nat, path: seq<nat>, n: nat)
    requires Chain(edges, f, path) && Repeats(path)
    ensures exists longer :: Chain(edges, f, longer) && |longer| > n
    decreases n - |path|
  {
    if |path| <= n {
      Pump(edges, f, path);
      var longer :| Chain(edges, f, longer) && Repeats(longer) && |longer| > |path|;
      PumpTo(edges, f, longer, n);
    }
  }

  /** Recursion and a longest chain exclude each other. */
  lemma RecursiveHasNoLongest(edges: Edges, f: nat, depth: nat)
    requires Recursive(edges, f)
    ensures !Longest(edges, f, depth)
  {
    var path :| Chain(edges, f, path) && Repeats(path);
    PumpTo(edges, f, path, depth);
  }

  // ---------------------------------------------------------------- the search

  function Callees(edges: Edges, f: nat): set<nat> {
    set e <- edges | e.0 == f :: e.1
  }

  function Callers(edges: Edges): set<nat> {
    set e <- edges :: e.0
  }

  function Max(a: nat, b: nat): nat {
    if a < b then b else a
  }

  ghost predicate MemoOk(edges: Edges, memo: map<nat, Option<nat>>) {
    forall g <- memo :: memo[g].Some? && Longest(edges, g, memo[g].value)
  }

  /** The functions being visited are the ones on the trail of calls that led to f. */
  ghost predicate TrailOk(edges: Edges, trail: seq<nat>, f: nat, visiting: set<nat>) {
    && (forall g :: g in visiting <==> g in trail)
    && Chain(edges, (trail + [f])[0], trail + [f])
  }

  lemma TrailPush(edges: Edges, trail: seq<nat>, f: nat, g: nat, visiting: set<nat>)
    requires TrailOk(edges, trail, f, visiting) && (f, g) in edges
    ensures TrailOk(edges, trail + [f], g, visiting + {f})
  {
    var path, longer := trail + [f], trail + [f] + [g];
    forall k | 0 <= k < |longer| - 1 ensures (longer[k], longer[k + 1]) in edges {
      if k < |path| - 1 {
        assert longer[k] == path[k] && longer[k + 1] == path[k + 1];
      }
    }
  }

  lemma BackOnTrail(edges: Edges, trail: seq<nat>, f: nat, visiting: set<nat>)
    requires TrailOk(edges, trail, f, visiting) && f in visiting
    ensures Recursive(edges, f)
  {
    var i :| 0 <= i < |trail| && trail[i] == f;
    var path := (trail + [f])[i..];
    forall k | 0 <= k < |path| - 1 ensures (path[k], path[k + 1]) in edges {
      assert path[k] == (trail + [f])[i + k] && path[k + 1] == (trail + [f])[i + k + 1];
    }
    assert Chain(edges, f, path);
    assert path[0] == path[|path| - 1];
    assert Repeats(path);
  }

  lemma DepthAbove(edges: Edges, f: nat, best: nat)
    requires forall g <- Callees(edges, f) :: exists d: nat :: d <= best && Longest(edges, g, d)
    requires best == 0 || exists g <- Callees(edges, f) :: Longest(edges, g, best)
    ensures Longest(edges, f, best + 1)
  {
    if best == 0 {
      assert Chain(edges, f, [f]);
    } else {
      var g :| g in Callees(edges, f) && Longest(edges, g, best);
      var path :| Chain(edges, g, path) && |path| == best;
      ChainLonger(edges, f, g, path);
      assert |[f] + path| == best + 1;
    }
    forall path | Chain(edges, f, path) ensures |path| <= best + 1 {
      if |path| > 1 {
        var g := path[1];
        assert (path[0], path[1]) in edges;
        assert g in Callees(edges, f);
        assert Chain(edges, g, path[1..]);
      }
    }
  }

  /** The depth of the calls below f; None as soon as a cycle is met. */
  method Visit(edges: Edges, f: nat, visiting: set<nat>, memo: map<nat, Option<nat>>, ghost trail: seq<nat>)
    returns (depth: Option<nat>, visiting': set<nat>, memo': map<nat, Option<nat>>)
    requires MemoOk(edges, memo) && TrailOk(edges, trail, f, visiting)
    ensures depth.Some? ==> Longest(edges, f, depth.value) && visiting' == visiting && MemoOk(edges, memo')
    ensures depth.None? ==> Recursive(edges, f)
    decreases Callers(edges) - visiting
  {
    visiting', memo' := visiting, memo;
    if f in memo {
      return memo[f], visiting', memo';
    }
    if f in visiting {
      BackOnTrail(edges, trail, f, visiting);
      memo' := memo[f := None];
      return None, visiting', memo';
    }
    visiting' := visiting + {f};
    var best := 0;
    var todo := Callees(edges, f);
    while todo != {}
      invariant todo <= Callees(edges, f)
      invariant visiting' == visiting + {f} && MemoOk(edges, memo')
      invariant forall g <- Callees(edges, f) - todo :: exists d: nat :: d <= best && Longest(edges, g, d)
      invariant best == 0 || exists g <- Callees(edges, f) :: Longest(edges, g, best)
      decreases |todo|
    {
      var callee :| callee in todo;
      assert (f, callee) in edges;
      assert f in Callers(edges) - visiting;
      TrailPush(edges, trail, f, callee, visiting);
      ghost var todo0, best0 := todo, best;
      var child;
      child, visiting', memo' := Visit(edges, callee, visiting', memo', trail + [f]);
      if child.None? {
        var path :| Chain(edges, callee, path) && Repeats(path);
        ChainLonger(edges, f, callee, path);
        return None, visiting', memo';
      }
      best := Max(best, child.value);
      todo := todo - {callee};
      forall g | g in Callees(edges, f) - todo ensures exists d: nat :: d <= best && Longest(edges, g, d) {
        if g != callee {
          assert g in Callees(edges, f) - todo0;
          var d: nat :| d <= best0 && Longest(edges, g, d);
        }
      }
    }
    assert Callees(edges, f) - todo == Callees(edges, f);
    DepthAbove(edges, f, best);
    visiting' := visiting' - {f};
    memo' := memo'[f := Some(best + 1)];
    return Some(best + 1), visiting', memo';
  }

  /** A number exactly when no recursion is reachable from main, and then the longest chain of calls. */
  method MaxFrameDepth(edges: Edges, main: nat) returns (depth: Option<nat>)
    ensures depth.Some? <==> !Recursive(edges, main)
    ensures depth.Some? ==> Longest(edges, main, depth.value)
  {
    var visiting, memo;
    depth, visiting, memo := Visit(edges, main, {}, map[], []);
    if depth.Some? && Recursive(edges, main) {
      RecursiveHasNoLongest(edges, main, depth.value);
    }
  }
}
