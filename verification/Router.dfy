/** Routing: a table of "METHOD path" keys, searched exactly first and by longest prefix then. */
module Routers {

  datatype Option<T> = None | Some(value: T)

  /** A handler, by identity. */
  type Handler = nat

  /** The name of a request method. It is a token (section 5.6.2 of RFC 9110), so it holds no space. */
  type Verb = s: string | ' ' !in s witness ""

  function MakeKey(verb: Verb, path: string): (key: string) {
    verb + " " + path
  }

  /** `key` is the longest registered key that begins `full`. */
  ghost predicate IsLongestPrefix(routes: map<string, Handler>, full: string, key: string) {
    && key in routes && key <= full && key != ""
    && forall k :: k in routes && k <= full ==> |k| <= |key|
  }

  ghost predicate HasPrefix(routes: map<string, Handler>, full: string) {
    exists k :: k in routes && k <= full && k != ""
  }

  /** There is never more than one. */
  lemma LongestPrefixIsUnique(routes: map<string, Handler>, full: string, k1: string, k2: string)
    requires IsLongestPrefix(routes, full, k1) && IsLongestPrefix(routes, full, k2)
    ensures k1 == k2
  {
    assert |k1| == |k2|;
    assert k1 == full[..|k1|] && k2 == full[..|k2|];
  }

  /** A key begins another exactly when the methods are the same and the path begins the path. */
  lemma KeyPrefix(v1: Verb, p1: string, v2: Verb, p2: string)
    ensures MakeKey(v1, p1) <= MakeKey(v2, p2) <==> v1 == v2 && p1 <= p2
  {
    var k1, k2 := MakeKey(v1, p1), MakeKey(v2, p2);
    if k1 <= k2 {
      NoSpaceBefore(v2, p2, |v1|);
      if |v2| <= |v1| {
        NoSpaceBefore(v1, p1, |v2|);
      }
      assert v1 == k1[..|v1|] == k2[..|v2|] == v2;
      assert p1 == k1[|v1| + 1..] && p2 == k2[|v2| + 1..];
    }
    if v1 == v2 && p1 <= p2 {
      assert k2 == k1 + p2[|p1|..];
    }
  }

  /** The first space of a key ends its method. */
  lemma NoSpaceBefore(v: Verb, p: string, i: nat)
    requires i < |MakeKey(v, p)| && MakeKey(v, p)[i] == ' '
    ensures |v| <= i
  {
    assert forall k :: 0 <= k < |v| ==> v[k] in v;
  }

  /** So different routes have different keys. */
  lemma MakeKeyIsInjective(v1: Verb, p1: string, v2: Verb, p2: string)
    requires MakeKey(v1, p1) == MakeKey(v2, p2)
    ensures v1 == v2 && p1 == p2
  {
    KeyPrefix(v1, p1, v2, p2);
    KeyPrefix(v2, p2, v1, p1);
  }

  /** What prefix search alone selects: the handler of the longest key that begins the request's. */
  ghost predicate Selects(routes: map<string, Handler>, full: string, r: Option<Handler>) {
    match r
    case None => !HasPrefix(routes, full)
    case Some(h) => exists key :: IsLongestPrefix(routes, full, key) && routes[key] == h
  }

  lemma SelectionIsUnique(routes: map<string, Handler>, full: string, r1: Option<Handler>, r2: Option<Handler>)
    requires Selects(routes, full, r1) && Selects(routes, full, r2)
    ensures r1 == r2
  {
    if r1.Some? && r2.Some? {
      var k1 :| IsLongestPrefix(routes, full, k1) && routes[k1] == r1.value;
      var k2 :| IsLongestPrefix(routes, full, k2) && routes[k2] == r2.value;
      LongestPrefixIsUnique(routes, full, k1, k2);
    }
  }

  /** A registered key is itself the longest prefix of itself: exact search never disagrees with prefix search. */
  lemma ExactIsLongest(routes: map<string, Handler>, verb: Verb, path: string)
    requires MakeKey(verb, path) in routes
    ensures Selects(routes, MakeKey(verb, path), Some(routes[MakeKey(verb, path)]))
  {
    assert IsLongestPrefix(routes, MakeKey(verb, path), MakeKey(verb, path));
  }

  class RouterTable {
    var routes: map<string, Handler>

    /** Every key was made from a method and a path. */
    ghost predicate Valid()
      reads this
    {
      forall k :: k in routes ==> exists v: Verb, p: string :: k == MakeKey(v, p)
    }

    constructor ()
      ensures Valid() && routes == map[]
    {
      routes := map[];
    }

    /** Adds a route, or replaces the handler of an existing one; no other route is touched. */
    method AddRoute(verb: Verb, path: string, handler: Handler)
      requires Valid()
      modifies this
      ensures Valid()
      ensures routes == old(routes)[MakeKey(verb, path) := handler]
    {
      routes := routes[MakeKey(verb, path) := handler];
    }

    method FindHandler(verb: Verb, path: string) returns (r: Option<Handler>)
      ensures r == if MakeKey(verb, path) in routes then Some(routes[MakeKey(verb, path)]) else None
    {
      var key := MakeKey(verb, path);
      if key in routes {
        return Some(routes[key]);
      }
      return None;
    }

    /** Looks at every route, in whatever order the table yields them. */
    method FindPrefixHandler(verb: Verb, path: string) returns (best: Option<Handler>)
      ensures Selects(routes, MakeKey(verb, path), best)
    {
      var full := MakeKey(verb, path);
      best := None;
      var bestLength := 0;
      ghost var bestKey := "";
      var rest := routes.Keys;
      while rest != {}
        invariant rest <= routes.Keys
        invariant bestLength == |bestKey|
        invariant best.None? <==> bestKey == ""
        invariant best.Some? ==> bestKey in routes && bestKey <= full && routes[bestKey] == best.value
        invariant forall k :: k in routes && k !in rest && k <= full ==> |k| <= bestLength
        decreases |rest|
      {
        var key :| key in rest;
        if key <= full {
          if |key| > bestLength {
            bestLength := |key|;
            best := Some(routes[key]);
            bestKey := key;
          }
        }
        rest := rest - {key};
      }
      assert best.Some? ==> IsLongestPrefix(routes, full, bestKey);
    }
  }

  class Router {
    const table: RouterTable

    constructor (table: RouterTable)
      ensures this.table == table
    {
      this.table := table;
    }

    /** Exact first, then by prefix: selects what prefix search alone would have. */
    method Route(verb: Verb, target: string) returns (r: Option<Handler>)
      ensures Selects(table.routes, MakeKey(verb, target), r)
    {
      r := table.FindHandler(verb, target);
      if r.None? {
        r := table.FindPrefixHandler(verb, target);
      } else {
        ExactIsLongest(table.routes, verb, target);
      }
    }
  }

  /** A selected handler was registered for the request's own method, under a path that begins the target. */
  lemma SelectedForSameMethod(routes: map<string, Handler>, v: Verb, target: string, h: Handler) returns (p: string)
    requires forall k :: k in routes ==> exists v': Verb, p': string :: k == MakeKey(v', p')
    requires Selects(routes, MakeKey(v, target), Some(h))
    ensures p <= target && MakeKey(v, p) in routes && routes[MakeKey(v, p)] == h
  {
    var key :| IsLongestPrefix(routes, MakeKey(v, target), key) && routes[key] == h;
    var v': Verb, p': string :| key == MakeKey(v', p');
    KeyPrefix(v', p', v, target);
    p := p';
  }
}
