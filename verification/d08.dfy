/** Haunted wasteland (d08/src/main.rs): a network of nodes, each with a
    left and a right successor, walked by cycling through a list of
    directions until a node of type End is reached; the ghost variant walks
    from every start node and combines the step counts with an LCM. */
module Wasteland {
  import opened Wrappers

  datatype Direction = Left | Right

  datatype NodeType = Start | End | Default

  /** A node of the `HashMap`: the names of its successors and its type. */
  datatype Node = Node(left: string, right: string, nodeType: NodeType)

  /** One `source = (left, right)` line, as the node regex captures it. */
  datatype Entry = Entry(name: string, left: string, right: string)

  type Network = map<string, Node>

  /** The walk's failures: a successor missing from the map (`unwrap` on
      `None`), a walk that does not reach End within the step bound (the
      source loops for ever), and a ghost walk with no start node (the
      `unwrap` of an empty `reduce`). */
  datatype WalkError = MissingNode | NoEndWithin | NoStartNodes

  // ---------------------------------------------------------------------
  // Node types

  /** The two classification rules: by the whole name (`handle`) or by
      its last character (`handle_ghosts`). */
  datatype Rule = ByName | ByLastChar

  /** The type a node gets from its name. The regex only captures
      three-character names, so the last character always exists. */
  function TypeOf(rule: Rule, name: string): (t: NodeType)
    requires name != []
    ensures rule == ByName ==> (t == Start <==> name == "AAA") && (t == End <==> name == "ZZZ")
    ensures rule == ByLastChar ==> (t == Start <==> name[|name| - 1] == 'A') && (t == End <==> name[|name| - 1] == 'Z')
  {
    match rule
    case ByName => if name == "AAA" then Start else if name == "ZZZ" then End else Default
    case ByLastChar =>
      var last := name[|name| - 1];
      if last == 'A' then Start else if last == 'Z' then End else Default
  }

  predicate Named(entries: seq<Entry>)
  {
    forall i :: 0 <= i < |entries| ==> entries[i].name != []
  }

  /** The `collect` into a `HashMap`: a later line for the same name
      replaces the earlier one. */
  function BuildNetwork(entries: seq<Entry>, rule: Rule): (net: Network)
    requires Named(entries)
    ensures forall name :: name in net <==> exists i :: 0 <= i < |entries| && entries[i].name == name
  {
    if entries == [] then map[]
    else
      var init := entries[..|entries| - 1];
      var e := entries[|entries| - 1];
      var net := BuildNetwork(init, rule);
      assert forall name :: name in net ==> exists i :: 0 <= i < |entries| && entries[i].name == name by {
        forall name | name in net
          ensures exists i :: 0 <= i < |entries| && entries[i].name == name
        {
          var i :| 0 <= i < |init| && init[i].name == name;
          assert entries[i] == init[i];
        }
      }
      net[e.name := Node(e.left, e.right, TypeOf(rule, e.name))]
  }

  /** The entry stored under a name is that of its last line. */
  lemma {:induction false} LastLineWins(entries: seq<Entry>, rule: Rule, i: nat)
    requires Named(entries) && i < |entries|
    requires forall j :: i < j < |entries| ==> entries[j].name != entries[i].name
    ensures var e := entries[i];
      e.name in BuildNetwork(entries, rule) &&
      BuildNetwork(entries, rule)[e.name] == Node(e.left, e.right, TypeOf(rule, e.name))
    decreases |entries|
  {
    if i < |entries| - 1 {
      var init := entries[..|entries| - 1];
      assert Named(init);
      LastLineWins(init, rule, i);
    }
  }

  // ---------------------------------------------------------------------
  // The walk

  /** The node a step in direction `d` leads to, if the map has it. */
  function Step(net: Network, node: Node, d: Direction): (r: Option<Node>)
    ensures r.Some? <==> (if d == Left then node.left else node.right) in net
  {
    var name := if d == Left then node.left else node.right;
    if name in net then Some(net[name]) else None
  }

  /** The node reached after `n` steps from `start`, step `k` (from 1)
      taking direction `dirs[(k - 1) % |dirs|]`; `None` once a successor is
      missing. */
  function Walk(net: Network, dirs: seq<Direction>, start: Node, n: nat): Option<Node>
    requires dirs != []
  {
    if n == 0 then Some(start)
    else match Walk(net, dirs, start, n - 1)
      case None => None
      case Some(node) => Step(net, node, dirs[(n - 1) % |dirs|])
  }

  /** Steps 1 to `n` all reach a node, and none of them is End. */
  predicate Clear(net: Network, dirs: seq<Direction>, start: Node, n: nat)
    requires dirs != []
  {
    forall k :: 1 <= k <= n ==> Walk(net, dirs, start, k).Some? && Walk(net, dirs, start, k).value.nodeType != End
  }

  /** Step `m` is the first to reach End (the start node itself is never
      looked at). */
  predicate FirstEndAt(net: Network, dirs: seq<Direction>, start: Node, m: nat)
    requires dirs != []
  {
    m >= 1 && Clear(net, dirs, start, m - 1) &&
    Walk(net, dirs, start, m).Some? && Walk(net, dirs, start, m).value.nodeType == End
  }

  /** Step `m` is the first to miss its successor, before any End. */
  predicate MissingAt(net: Network, dirs: seq<Direction>, start: Node, m: nat)
    requires dirs != []
  {
    m >= 1 && Clear(net, dirs, start, m - 1) && Walk(net, dirs, start, m).None?
  }

  /** `cycle()` restarts the directions: after a whole number of rounds the
      walk goes on as a fresh walk from the node reached. */
  lemma {:induction false} WalkCycles(net: Network, dirs: seq<Direction>, start: Node, a: nat, b: nat)
    requires dirs != [] && a % |dirs| == 0
    ensures Walk(net, dirs, start, a + b) ==
      match Walk(net, dirs, start, a)
      case None => None
      case Some(mid) => Walk(net, dirs, mid, b)
  {
    if b > 0 {
      WalkCycles(net, dirs, start, a, b - 1);
      var q := a / |dirs|;
      assert a == q * |dirs|;
      assert (a + b - 1) % |dirs| == (b - 1) % |dirs| by {
        ModShift(b - 1, q, |dirs|);
      }
    } else {
      match Walk(net, dirs, start, a)
      case None =>
      case Some(mid) =>
    }
  }

  lemma ModShift(x: nat, q: nat, n: nat)
    requires n > 0
    ensures (q * n + x) % n == x % n
  {
    assert q * n + x == n * (q + x / n) + x % n;
    DivModUnique(q * n + x, n, q + x / n, x % n);
  }

  /** The step search of `get_node_counter`, from the node reached after
      `n` steps: the count at the first End, or the first failure. */
  function Search(net: Network, dirs: seq<Direction>, node: Node, n: nat, limit: nat): (r: Result<nat, WalkError>)
    requires dirs != []
    ensures r.Ok? ==> n < r.value <= limit
    ensures r.Err? ==> r.error != NoStartNodes
    decreases limit - n
  {
    if n >= limit then Err(NoEndWithin)
    else match Step(net, node, dirs[n % |dirs|])
      case None => Err(MissingNode)
      case Some(next) => if next.nodeType == End then Ok(n + 1) else Search(net, dirs, next, n + 1, limit)
  }

  /** `get_node_counter` with at most `limit` steps. An empty direction
      list makes `cycle()` yield nothing, so the counter stays 0. */
  function Counter(net: Network, dirs: seq<Direction>, start: Node, limit: nat): (r: Result<nat, WalkError>)
    ensures dirs == [] ==> r == Ok(0)
    ensures r.Err? ==> r.error != NoStartNodes
  {
    if dirs == [] then Ok(0) else Search(net, dirs, start, 0, limit)
  }

  /** What each outcome of the search says about the walk. */
  lemma {:induction false} SearchMeaning(net: Network, dirs: seq<Direction>, start: Node, node: Node, n: nat, limit: nat)
    requires dirs != []
    requires Walk(net, dirs, start, n) == Some(node) && Clear(net, dirs, start, n)
    ensures var r := Search(net, dirs, node, n, limit);
      (r.Ok? ==> FirstEndAt(net, dirs, start, r.value)) &&
      (r == Err(MissingNode) ==> exists m :: n < m <= limit && MissingAt(net, dirs, start, m)) &&
      (r == Err(NoEndWithin) ==> Clear(net, dirs, start, limit))
    decreases limit - n
  {
    if n < limit {
      var next := Step(net, node, dirs[n % |dirs|]);
      assert Walk(net, dirs, start, n + 1) == next;
      if next.None? {
        assert MissingAt(net, dirs, start, n + 1);
      } else if next.value.nodeType == End {
        assert FirstEndAt(net, dirs, start, n + 1);
      } else {
        assert Clear(net, dirs, start, n + 1);
        SearchMeaning(net, dirs, start, next.value, n + 1, limit);
      }
    }
  }

  /** A walk that is clear up to `n` is clear up to any earlier step. */
  lemma ClearPrefix(net: Network, dirs: seq<Direction>, start: Node, k: nat, n: nat)
    requires dirs != [] && k <= n && Clear(net, dirs, start, n)
    ensures Clear(net, dirs, start, k)
  {
  }

  /** The first End, the first missing node and a clear stretch exclude one
      another. */
  lemma FirstEventsExclusive(net: Network, dirs: seq<Direction>, start: Node, m: nat, m': nat)
    requires dirs != []
    ensures FirstEndAt(net, dirs, start, m) && FirstEndAt(net, dirs, start, m') ==> m == m'
    ensures FirstEndAt(net, dirs, start, m) && MissingAt(net, dirs, start, m') ==> false
    ensures MissingAt(net, dirs, start, m) && MissingAt(net, dirs, start, m') ==> m == m'
    ensures FirstEndAt(net, dirs, start, m) && Clear(net, dirs, start, m') ==> m' < m
    ensures MissingAt(net, dirs, start, m) && Clear(net, dirs, start, m') ==> m' < m
  {
  }

  /** The counter is exactly the first step that reaches End; the search
      fails on a missing node exactly when one comes first, and runs out of
      steps exactly when the whole bound is clear. */
  lemma CounterMeaning(net: Network, dirs: seq<Direction>, start: Node, limit: nat)
    requires dirs != []
    ensures forall m: nat :: Counter(net, dirs, start, limit) == Ok(m) <==> FirstEndAt(net, dirs, start, m) && m <= limit
    ensures Counter(net, dirs, start, limit) == Err(MissingNode) <==>
      exists m :: 1 <= m <= limit && MissingAt(net, dirs, start, m)
    ensures Counter(net, dirs, start, limit) == Err(NoEndWithin) <==> Clear(net, dirs, start, limit)
  {
    var r := Counter(net, dirs, start, limit);
    SearchMeaning(net, dirs, start, start, 0, limit);
    forall m, m' {
      FirstEventsExclusive(net, dirs, start, m, m');
    }
    if r.Ok? {
      forall m: nat | FirstEndAt(net, dirs, start, m) && m <= limit
        ensures r == Ok(m)
      {
        FirstEventsExclusive(net, dirs, start, m, r.value);
      }
    }
  }

  /** `get_node_counter`: step through the map, cycling through the
      directions, until a node of type End; the start node's own type is
      never checked. */
  method NodeCounter(net: Network, dirs: seq<Direction>, start: Node, limit: nat) returns (r: Result<nat, WalkError>)
    ensures r == Counter(net, dirs, start, limit)
  {
    if dirs == [] {
      return Ok(0);
    }
    var current := start;
    var counter: nat := 0;
    while counter < limit
      invariant counter <= limit
      invariant Search(net, dirs, start, 0, limit) == Search(net, dirs, current, counter, limit)
      decreases limit - counter
    {
      var name := if dirs[counter % |dirs|] == Left then current.left else current.right;
      if name !in net {
        return Err(MissingNode);
      }
      current := net[name];
      counter := counter + 1;
      if current.nodeType == End {
        return Ok(counter);
      }
    }
    return Err(NoEndWithin);
  }

  // ---------------------------------------------------------------------
  // Part one

  /** `handle`: classify by name, start from `AAA` (whose absence is the
      `unwrap` panic) and count the steps to `ZZZ`. */
  function PartOne(entries: seq<Entry>, dirs: seq<Direction>, limit: nat): (r: Result<nat, WalkError>)
    requires Named(entries)
    ensures (forall i :: 0 <= i < |entries| ==> entries[i].name != "AAA") ==> r == Err(MissingNode)
  {
    var net := BuildNetwork(entries, ByName);
    if "AAA" in net then Counter(net, dirs, net["AAA"], limit) else Err(MissingNode)
  }

  method Handle(entries: seq<Entry>, dirs: seq<Direction>, limit: nat) returns (r: Result<nat, WalkError>)
    requires Named(entries)
    ensures r == PartOne(entries, dirs, limit)
  {
    var net := BuildNetwork(entries, ByName);
    if "AAA" !in net {
      return Err(MissingNode);
    }
    r := NodeCounter(net, dirs, net["AAA"], limit);
  }

  // ---------------------------------------------------------------------
  // Greatest common divisor and least common multiple

  /** Euclid's algorithm, as `num::integer::gcd`. */
  function Gcd(a: nat, b: nat): (g: nat)
    ensures g == 0 <==> a == 0 && b == 0
    decreases b
  {
    if b == 0 then a else Gcd(b, a % b)
  }

  /** `d` divides `n`; only 0 is a multiple of 0. */
  predicate Divides(d: nat, n: nat)
  {
    if d == 0 then n == 0 else n % d == 0
  }

  lemma MulNonneg(x: nat, y: nat)
    ensures x * y >= 0
  {
  }

  lemma MulAddLeft(m: int, x: int, y: int)
    ensures m * (x + y) == m * x + m * y
  {
  }

  lemma MulAssoc(m: int, x: int, y: int)
    ensures m * (x * y) == (m * x) * y
  {
  }

  lemma MulBounds(n: nat, t: int)
    ensures t >= 1 ==> n * t >= n
    ensures t <= -1 ==> n * t + n <= 0
  {
  }

  /** Quotient and remainder are the only ones. */
  lemma DivModUnique(x: nat, n: nat, q: nat, r: nat)
    requires n > 0 && x == n * q + r && r < n
    ensures x / n == q && x % n == r
  {
    var t := q - x / n;
    assert n * t == x % n - r;
    MulBounds(n, t);
  }

  lemma DividesIntro(d: nat, n: nat, k: nat)
    requires n == d * k
    ensures Divides(d, n)
  {
    if d > 0 {
      DivModUnique(n, d, k, 0);
    }
  }

  lemma DividesElim(d: nat, n: nat) returns (k: nat)
    requires Divides(d, n)
    ensures n == d * k
  {
    if d == 0 {
      k := 0;
    } else {
      k := n / d;
    }
  }

  lemma MulCancel(g: nat, x: nat, y: nat)
    requires g > 0 && g * x == g * y
    ensures x == y
  {
    assert g * (x - y) == 0;
    MulBounds(g, x - y);
  }

  /** A divisor of `a` and of `b` divides `a % b`. */
  lemma DividesMod(d: nat, a: nat, b: nat)
    requires b > 0 && Divides(d, a) && Divides(d, b)
    ensures Divides(d, a % b)
  {
    var ka := DividesElim(d, a);
    var kb := DividesElim(d, b);
    var q := a / b;
    var t := ka - kb * q;
    assert a % b == a - b * q;
    assert a - b * q == d * ka - d * (kb * q);
    assert d * t == a % b;
    MulBounds(d, t);
    DividesIntro(d, a % b, t);
  }

  /** A divisor of `b` and of `a % b` divides `a`. */
  lemma DividesFromMod(d: nat, a: nat, b: nat)
    requires b > 0 && Divides(d, b) && Divides(d, a % b)
    ensures Divides(d, a)
  {
    var kb := DividesElim(d, b);
    var kr := DividesElim(d, a % b);
    var q := a / b;
    assert a == b * q + a % b;
    assert b * q == d * (kb * q);
    DividesIntro(d, a, kb * q + kr);
  }

  /** The gcd divides both numbers, and every common divisor divides it. */
  lemma {:induction false} GcdDivides(a: nat, b: nat)
    ensures Divides(Gcd(a, b), a) && Divides(Gcd(a, b), b)
    ensures forall d :: Divides(d, a) && Divides(d, b) ==> Divides(d, Gcd(a, b))
    decreases b
  {
    if b == 0 {
      DividesIntro(a, a, 1);
      DividesIntro(a, 0, 0);
    } else {
      GcdDivides(b, a % b);
      DividesFromMod(Gcd(a, b), a, b);
      forall d | Divides(d, a) && Divides(d, b)
        ensures Divides(d, Gcd(a, b))
      {
        DividesMod(d, a, b);
      }
    }
  }

  lemma ModScale(m: nat, a: nat, b: nat)
    requires m > 0 && b > 0
    ensures (m * a) % (m * b) == m * (a % b)
  {
    var q := a / b;
    var r := a % b;
    assert a == b * q + r;
    MulAddLeft(m, b * q, r);
    MulAssoc(m, b, q);
    MulAddLeft(m, r, b - r);
    MulBounds(m, b - r);
    DivModUnique(m * a, m * b, q, m * r);
  }

  /** `gcd(m * a, m * b) == m * gcd(a, b)`. */
  lemma {:induction false} GcdScale(m: nat, a: nat, b: nat)
    ensures Gcd(m * a, m * b) == m * Gcd(a, b)
    decreases b
  {
    if m == 0 {
      assert m * a == 0 && m * b == 0;
    } else if b > 0 {
      ModScale(m, a, b);
      GcdScale(m, b, a % b);
    }
  }

  /** `num::integer::lcm`: zero when both are zero, else
      `a * (b / gcd(a, b))`. */
  function Lcm(a: nat, b: nat): nat
  {
    if a == 0 && b == 0 then 0
    else
      var q := b / Gcd(a, b);
      MulNonneg(a, q);
      a * q
  }

  /** With `g` the gcd, `a == g * ka`, `b == g * kb` and the lcm is
      `g * ka * kb`. */
  lemma LcmShape(a: nat, b: nat) returns (ka: nat, kb: nat)
    requires a > 0 || b > 0
    ensures a == Gcd(a, b) * ka && b == Gcd(a, b) * kb
    ensures Lcm(a, b) == Gcd(a, b) * ka * kb
  {
    GcdDivides(a, b);
    var g := Gcd(a, b);
    ka := DividesElim(g, a);
    kb := DividesElim(g, b);
    DivModUnique(b, g, kb, 0);
    assert Lcm(a, b) == a * kb;
  }

  /** The lcm is a common multiple of both numbers. */
  lemma LcmCommonMultiple(a: nat, b: nat)
    ensures Divides(a, Lcm(a, b)) && Divides(b, Lcm(a, b))
  {
    if a == 0 && b == 0 {
      DividesIntro(0, 0, 0);
    } else {
      var ka, kb := LcmShape(a, b);
      var g := Gcd(a, b);
      assert Lcm(a, b) == a * kb;
      DividesIntro(a, Lcm(a, b), kb);
      assert g * ka * kb == (g * kb) * ka;
      DividesIntro(b, Lcm(a, b), ka);
    }
  }

  /** `a * b` divides `m * a` and `m * b` when `m` is a common multiple. */
  lemma ProductDividesScaled(a: nat, b: nat, m: nat)
    requires Divides(a, m) && Divides(b, m)
    ensures Divides(a * b, m * a) && Divides(a * b, m * b)
  {
    var ja := DividesElim(a, m);
    var jb := DividesElim(b, m);
    assert m * a == (b * jb) * a == (a * b) * jb;
    DividesIntro(a * b, m * a, jb);
    assert m * b == (a * ja) * b == (a * b) * ja;
    DividesIntro(a * b, m * b, ja);
  }

  /** For a common multiple `m`, `a * b` divides `m * gcd(a, b)`, which
      is `gcd(m * a, m * b)`. */
  lemma ProductDividesScaledGcd(a: nat, b: nat, m: nat)
    requires Divides(a, m) && Divides(b, m)
    ensures Divides(a * b, m * Gcd(a, b))
  {
    ProductDividesScaled(a, b, m);
    GcdDivides(m * a, m * b);
    GcdScale(m, a, b);
  }

  /** The lcm divides every common multiple: it is the least one. */
  lemma LcmLeast(a: nat, b: nat, m: nat)
    requires Divides(a, m) && Divides(b, m)
    ensures Divides(Lcm(a, b), m)
  {
    if a == 0 && b == 0 {
      DividesIntro(0, 0, 0);
    } else {
      ProductDividesScaledGcd(a, b, m);
      var ka, kb := LcmShape(a, b);
      var g := Gcd(a, b);
      var l := g * ka * kb;
      var t := DividesElim(a * b, m * g);
      ShapeProduct(g, ka, kb);
      CancelGcd(g, l, m, t);
      DividesIntro(Lcm(a, b), m, t);
    }
  }

  lemma ShapeProduct(g: nat, ka: nat, kb: nat)
    ensures (g * ka) * (g * kb) == g * (g * ka * kb)
  {
  }

  lemma CancelGcd(g: nat, l: nat, m: nat, t: nat)
    requires g > 0 && m * g == (g * l) * t
    ensures m == l * t
  {
    assert g * m == g * (l * t);
    MulCancel(g, m, l * t);
  }

  lemma DividesTransitive(a: nat, b: nat, c: nat)
    requires Divides(a, b) && Divides(b, c)
    ensures Divides(a, c)
  {
    var x := DividesElim(a, b);
    var y := DividesElim(b, c);
    assert c == a * (x * y);
    DividesIntro(a, c, x * y);
  }

  // ---------------------------------------------------------------------
  // Part two

  /** The names of the start nodes, in line order, pushed while the map is
      collected (a repeated start line is pushed again). */
  function StartNames(entries: seq<Entry>): (s: seq<string>)
    requires Named(entries)
    ensures forall k :: 0 <= k < |s| ==> exists i :: 0 <= i < |entries| && entries[i].name == s[k]
    ensures forall k :: 0 <= k < |s| ==> s[k] != [] && s[k][|s[k]| - 1] == 'A'
  {
    if entries == [] then []
    else
      var init := entries[..|entries| - 1];
      var e := entries[|entries| - 1];
      assert Named(init);
      var s := StartNames(init);
      assert forall k :: 0 <= k < |s| ==> exists i :: 0 <= i < |entries| && entries[i].name == s[k] by {
        forall k | 0 <= k < |s|
          ensures exists i :: 0 <= i < |entries| && entries[i].name == s[k]
        {
          var i :| 0 <= i < |init| && init[i].name == s[k];
          assert entries[i] == init[i];
        }
      }
      var pushed := if TypeOf(ByLastChar, e.name) == Start then [e.name] else [];
      assert forall k :: 0 <= k < |pushed| ==> pushed[k] == e.name && e.name[|e.name| - 1] == 'A';
      assert forall k :: 0 <= k < |s| ==> (s + pushed)[k] == s[k];
      assert forall k :: |s| <= k < |s + pushed| ==> (s + pushed)[k] == pushed[k - |s|];
      s + pushed
  }

  /** The `reduce` with `lcm` of the counters of the given starts, after
      the first; the first failing walk decides the error. */
  function FoldCounters(net: Network, dirs: seq<Direction>, starts: seq<string>, limit: nat, acc: nat): (r: Result<nat, WalkError>)
    requires forall k :: 0 <= k < |starts| ==> starts[k] in net
    ensures r.Err? ==> r.error != NoStartNodes
  {
    if starts == [] then Ok(acc)
    else match Counter(net, dirs, net[starts[0]], limit)
      case Err(e) => Err(e)
      case Ok(c) => FoldCounters(net, dirs, starts[1..], limit, Lcm(acc, c))
  }

  /** `handle_ghosts`: the lcm of the step counts from every start node. */
  function PartTwo(entries: seq<Entry>, dirs: seq<Direction>, limit: nat): (r: Result<nat, WalkError>)
    requires Named(entries)
    ensures r == Err(NoStartNodes) <==> StartNames(entries) == []
  {
    var net := BuildNetwork(entries, ByLastChar);
    var starts := StartNames(entries);
    if starts == [] then Err(NoStartNodes)
    else match Counter(net, dirs, net[starts[0]], limit)
      case Err(e) => Err(e)
      case Ok(c) => FoldCounters(net, dirs, starts[1..], limit, c)
  }

  /** Every counter folded in divides the result, and the result divides
      every common multiple of them and of the starting value. */
  lemma {:induction false} FoldIsLeastCommonMultiple(net: Network, dirs: seq<Direction>, starts: seq<string>, limit: nat, acc: nat)
    requires forall k :: 0 <= k < |starts| ==> starts[k] in net
    requires FoldCounters(net, dirs, starts, limit, acc).Ok?
    ensures var l := FoldCounters(net, dirs, starts, limit, acc).value;
      Divides(acc, l) &&
      (forall k :: 0 <= k < |starts| ==>
        Counter(net, dirs, net[starts[k]], limit).Ok? && Divides(Counter(net, dirs, net[starts[k]], limit).value, l)) &&
      (forall m :: Divides(acc, m) && (forall k :: 0 <= k < |starts| ==> Divides(Counter(net, dirs, net[starts[k]], limit).value, m)) ==> Divides(l, m))
  {
    var l := FoldCounters(net, dirs, starts, limit, acc).value;
    if starts == [] {
      DividesIntro(acc, acc, 1);
    } else {
      var c := Counter(net, dirs, net[starts[0]], limit).value;
      var acc' := Lcm(acc, c);
      FoldIsLeastCommonMultiple(net, dirs, starts[1..], limit, acc');
      LcmCommonMultiple(acc, c);
      DividesTransitive(acc, acc', l);
      DividesTransitive(c, acc', l);
      forall k | 0 <= k < |starts|
        ensures Counter(net, dirs, net[starts[k]], limit).Ok? && Divides(Counter(net, dirs, net[starts[k]], limit).value, l)
      {
        if k > 0 {
          assert starts[k] == starts[1..][k - 1];
        }
      }
      forall m | Divides(acc, m) && (forall k :: 0 <= k < |starts| ==> Divides(Counter(net, dirs, net[starts[k]], limit).value, m))
        ensures Divides(l, m)
      {
        assert Divides(c, m);
        LcmLeast(acc, c, m);
        forall k | 0 <= k < |starts[1..]|
          ensures Divides(Counter(net, dirs, net[starts[1..][k]], limit).value, m)
        {
          assert starts[1..][k] == starts[k + 1];
        }
      }
    }
  }

  /** The loop of `handle_ghosts`: walk from every start node and fold the
      counters with `lcm`. */
  method HandleGhosts(entries: seq<Entry>, dirs: seq<Direction>, limit: nat) returns (r: Result<nat, WalkError>)
    requires Named(entries)
    ensures r == PartTwo(entries, dirs, limit)
  {
    var net := BuildNetwork(entries, ByLastChar);
    var starts := StartNames(entries);
    if starts == [] {
      return Err(NoStartNodes);
    }
    var first := NodeCounter(net, dirs, net[starts[0]], limit);
    if first.Err? {
      return first;
    }
    var acc := first.value;
    var i := 1;
    while i < |starts|
      invariant 1 <= i <= |starts|
      invariant PartTwo(entries, dirs, limit) == FoldCounters(net, dirs, starts[i..], limit, acc)
    {
      var c := NodeCounter(net, dirs, net[starts[i]], limit);
      assert starts[i..][1..] == starts[i + 1..];
      if c.Err? {
        return Err(c.error);
      }
      acc := Lcm(acc, c.value);
      i := i + 1;
    }
    return Ok(acc);
  }

  // ---------------------------------------------------------------------
  // The examples of the tests

  const FirstExample := [Entry("AAA", "BBB", "CCC"), Entry("BBB", "DDD", "EEE"), Entry("CCC", "ZZZ", "GGG"),
    Entry("DDD", "DDD", "DDD"), Entry("EEE", "EEE", "EEE"), Entry("GGG", "GGG", "GGG"),
    Entry("ZZZ", "ZZZ", "ZZZ")]

  const SecondExample := [Entry("AAA", "BBB", "BBB"), Entry("BBB", "AAA", "ZZZ"), Entry("ZZZ", "ZZZ", "ZZZ")]

  const GhostExample := [Entry("11A", "11B", "XXX"), Entry("11B", "XXX", "11Z"), Entry("11Z", "11B", "XXX"),
    Entry("22A", "22B", "XXX"), Entry("22B", "22C", "22C"), Entry("22C", "22Z", "22Z"),
    Entry("22Z", "22B", "22B"), Entry("XXX", "XXX", "XXX")]

  const FirstNetwork: Network := map["AAA" := Node("BBB", "CCC", Start), "BBB" := Node("DDD", "EEE", Default),
    "CCC" := Node("ZZZ", "GGG", Default), "DDD" := Node("DDD", "DDD", Default),
    "EEE" := Node("EEE", "EEE", Default), "GGG" := Node("GGG", "GGG", Default),
    "ZZZ" := Node("ZZZ", "ZZZ", End)]

  const SecondNetwork: Network := map["AAA" := Node("BBB", "BBB", Start), "BBB" := Node("AAA", "ZZZ", Default),
    "ZZZ" := Node("ZZZ", "ZZZ", End)]

  const GhostNetwork: Network := map["11A" := Node("11B", "XXX", Start), "11B" := Node("XXX", "11Z", Default),
    "11Z" := Node("11B", "XXX", End), "22A" := Node("22B", "XXX", Start),
    "22B" := Node("22C", "22C", Default), "22C" := Node("22Z", "22Z", Default),
    "22Z" := Node("22B", "22B", End), "XXX" := Node("XXX", "XXX", Default)]

  /** The map `collect` builds from the first example. */
  lemma FirstExampleNetwork()
    ensures BuildNetwork(FirstExample, ByName) == FirstNetwork
  {
    var es := FirstExample;
    var P1 := [Entry("AAA", "BBB", "CCC")];
    var P2 := [Entry("AAA", "BBB", "CCC"), Entry("BBB", "DDD", "EEE")];
    var P3 := [Entry("AAA", "BBB", "CCC"), Entry("BBB", "DDD", "EEE"), Entry("CCC", "ZZZ", "GGG")];
    var P4 := [Entry("AAA", "BBB", "CCC"), Entry("BBB", "DDD", "EEE"), Entry("CCC", "ZZZ", "GGG"), Entry("DDD", "DDD", "DDD")];
    var P5 := [Entry("AAA", "BBB", "CCC"), Entry("BBB", "DDD", "EEE"), Entry("CCC", "ZZZ", "GGG"), Entry("DDD", "DDD", "DDD"), Entry("EEE", "EEE", "EEE")];
    var P6 := [Entry("AAA", "BBB", "CCC"), Entry("BBB", "DDD", "EEE"), Entry("CCC", "ZZZ", "GGG"), Entry("DDD", "DDD", "DDD"), Entry("EEE", "EEE", "EEE"), Entry("GGG", "GGG", "GGG")];
    assert es[..6] == P6;
    assert P6[..5] == P5;
    assert P5[..4] == P4;
    assert P4[..3] == P3;
    assert P3[..2] == P2;
    assert P2[..1] == P1;
  }

  /** `RL`: AAA -> CCC -> ZZZ in two steps. */
  lemma PartOneFirstExample()
    ensures PartOne(FirstExample, [Right, Left], 10) == Ok(2)
  {
    FirstExampleNetwork();
    FirstWalk();
  }

  lemma FirstWalk()
    ensures Counter(FirstNetwork, [Right, Left], FirstNetwork["AAA"], 10) == Ok(2)
  {
  }

  /** The map `collect` builds from the second example. */
  lemma SecondExampleNetwork()
    ensures BuildNetwork(SecondExample, ByName) == SecondNetwork
  {
    var es := SecondExample;
    var P1 := [Entry("AAA", "BBB", "BBB")];
    var P2 := [Entry("AAA", "BBB", "BBB"), Entry("BBB", "AAA", "ZZZ")];
    assert es[..2] == P2;
    assert P2[..1] == P1;
  }

  /** `LLR`: the walk goes round the directions twice, six steps. */
  lemma PartOneSecondExample()
    ensures PartOne(SecondExample, [Left, Left, Right], 10) == Ok(6)
  {
    SecondExampleNetwork();
    SecondWalk();
  }

  lemma SecondWalk()
    ensures Counter(SecondNetwork, [Left, Left, Right], SecondNetwork["AAA"], 10) == Ok(6)
  {
  }

  /** The map `collect` builds from the ghost example, typed by last character. */
  lemma GhostExampleNetwork()
    ensures BuildNetwork(GhostExample, ByLastChar) == GhostNetwork
  {
    var es := GhostExample;
    var P1 := [Entry("11A", "11B", "XXX")];
    var P2 := [Entry("11A", "11B", "XXX"), Entry("11B", "XXX", "11Z")];
    var P3 := [Entry("11A", "11B", "XXX"), Entry("11B", "XXX", "11Z"), Entry("11Z", "11B", "XXX")];
    var P4 := [Entry("11A", "11B", "XXX"), Entry("11B", "XXX", "11Z"), Entry("11Z", "11B", "XXX"), Entry("22A", "22B", "XXX")];
    var P5 := [Entry("11A", "11B", "XXX"), Entry("11B", "XXX", "11Z"), Entry("11Z", "11B", "XXX"), Entry("22A", "22B", "XXX"), Entry("22B", "22C", "22C")];
    var P6 := [Entry("11A", "11B", "XXX"), Entry("11B", "XXX", "11Z"), Entry("11Z", "11B", "XXX"), Entry("22A", "22B", "XXX"), Entry("22B", "22C", "22C"), Entry("22C", "22Z", "22Z")];
    var P7 := [Entry("11A", "11B", "XXX"), Entry("11B", "XXX", "11Z"), Entry("11Z", "11B", "XXX"), Entry("22A", "22B", "XXX"), Entry("22B", "22C", "22C"), Entry("22C", "22Z", "22Z"), Entry("22Z", "22B", "22B")];
    assert es[..7] == P7;
    assert P7[..6] == P6;
    assert P6[..5] == P5;
    assert P5[..4] == P4;
    assert P4[..3] == P3;
    assert P3[..2] == P2;
    assert P2[..1] == P1;
  }

  /** The ghosts start at the two names ending in `A`, in entry order. */
  lemma GhostExampleStarts()
    ensures StartNames(GhostExample) == ["11A", "22A"]
  {
    var es := GhostExample;
    var P1 := [Entry("11A", "11B", "XXX")];
    var P2 := [Entry("11A", "11B", "XXX"), Entry("11B", "XXX", "11Z")];
    var P3 := [Entry("11A", "11B", "XXX"), Entry("11B", "XXX", "11Z"), Entry("11Z", "11B", "XXX")];
    var P4 := [Entry("11A", "11B", "XXX"), Entry("11B", "XXX", "11Z"), Entry("11Z", "11B", "XXX"), Entry("22A", "22B", "XXX")];
    var P5 := [Entry("11A", "11B", "XXX"), Entry("11B", "XXX", "11Z"), Entry("11Z", "11B", "XXX"), Entry("22A", "22B", "XXX"), Entry("22B", "22C", "22C")];
    var P6 := [Entry("11A", "11B", "XXX"), Entry("11B", "XXX", "11Z"), Entry("11Z", "11B", "XXX"), Entry("22A", "22B", "XXX"), Entry("22B", "22C", "22C"), Entry("22C", "22Z", "22Z")];
    var P7 := [Entry("11A", "11B", "XXX"), Entry("11B", "XXX", "11Z"), Entry("11Z", "11B", "XXX"), Entry("22A", "22B", "XXX"), Entry("22B", "22C", "22C"), Entry("22C", "22Z", "22Z"), Entry("22Z", "22B", "22B")];
    assert es[..7] == P7;
    assert P7[..6] == P6;
    assert P6[..5] == P5;
    assert P5[..4] == P4;
    assert P4[..3] == P3;
    assert P3[..2] == P2;
    assert P2[..1] == P1;
  }

  /** `LR`: the ghosts from `11A` and `22A` need 2 and 3 steps; lcm 6. */
  lemma PartTwoExample()
    ensures PartTwo(GhostExample, [Left, Right], 10) == Ok(6)
  {
    GhostExampleNetwork();
    GhostExampleStarts();
    GhostWalks();
  }

  lemma GhostWalks()
    ensures Counter(GhostNetwork, [Left, Right], GhostNetwork["11A"], 10) == Ok(2)
    ensures Counter(GhostNetwork, [Left, Right], GhostNetwork["22A"], 10) == Ok(3)
    ensures Lcm(2, 3) == 6
  {
  }
}
