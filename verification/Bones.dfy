/**
 `evaluateBoneWorld` of `tools/Character part lab/character_lab_runtime.js`: a memoised depth-first
 evaluation of parent chains, with cycle detection. Numbers are reals; sine and cosine are parameters.
 */
module Bones {
  import opened Basics

  /** `t` and `r` are `None` when the contract holds no finite numbers there; the empty parent means none. */
  datatype Bone = Bone(parent: string, t: Option<(real, real)>, r: Option<real>)

  datatype World = World(x: real, y: real, angle: real)

  const ORIGIN := World(0.0, 0.0, 0.0)

  datatype Error = Cycle(id: string) | MissingBone(id: string) | BadTranslation(id: string) | BadRotation(id: string)

  datatype Result<+T> = Ok(value: T) | Err(error: Error)

  /** The contract: bones by id, rotation offsets by id, and the trigonometric functions. */
  datatype Rig = Rig(locals: map<string, Bone>, offsets: map<string, Option<real>>, cos: real -> real,
    sin: real -> real)

  function Offset(rig: Rig, id: string): Option<real> {
    if id in rig.offsets then rig.offsets[id] else Some(0.0)
  }

  predicate Good(rig: Rig, id: string) {
    id in rig.locals && rig.locals[id].t.Some? && rig.locals[id].r.Some? && Offset(rig, id).Some?
  }

  /** One bone's transform on top of its parent's. */
  function Under(rig: Rig, parent: World, id: string): World
    requires Good(rig, id)
  {
    var (tx, ty) := rig.locals[id].t.value;
    var c, s := rig.cos(parent.angle), rig.sin(parent.angle);
    World(parent.x + tx * c - ty * s, parent.y + tx * s + ty * c,
          parent.angle + rig.locals[id].r.value + Offset(rig, id).value)
  }

  // The simple definition: walk the parent chain.

  /** The chain of `id` reaches a root within `n` bones, all of them present and well formed. */
  predicate Grounded(rig: Rig, id: string, n: nat)
    decreases n
  {
    n > 0 && Good(rig, id) && (rig.locals[id].parent == "" || Grounded(rig, rig.locals[id].parent, n - 1))
  }

  /** The composition of the local transforms along the chain. */
  function Along(rig: Rig, id: string, n: nat): World
    requires Grounded(rig, id, n)
    decreases n
  {
    var parent := rig.locals[id].parent;
    Under(rig, if parent == "" then ORIGIN else Along(rig, parent, n - 1), id)
  }

  lemma {:induction false} AlongUnique(rig: Rig, id: string, m: nat, n: nat)
    requires Grounded(rig, id, m) && Grounded(rig, id, n)
    ensures Along(rig, id, m) == Along(rig, id, n)
    decreases m
  {
    if rig.locals[id].parent != "" { AlongUnique(rig, rig.locals[id].parent, m - 1, n - 1); }
  }

  ghost predicate HasWorld(rig: Rig, id: string, w: World) {
    exists n: nat :: Grounded(rig, id, n) && Along(rig, id, n) == w
  }

  ghost predicate Placeable(rig: Rig, id: string) {
    exists n: nat :: Grounded(rig, id, n)
  }

  // What can be wrong with a chain.

  /** The `k`-th bone id on the way up from `id`, if the chain goes that far. */
  function Ancestor(rig: Rig, id: string, k: nat): Option<string>
    decreases k
  {
    if k == 0 then Some(id)
    else if id in rig.locals && rig.locals[id].parent != "" then Ancestor(rig, rig.locals[id].parent, k - 1)
    else None
  }

  ghost predicate Above(rig: Rig, id: string, a: string) {
    exists k: nat :: Ancestor(rig, id, k) == Some(a)
  }

  ghost predicate StrictlyAbove(rig: Rig, id: string, a: string) {
    exists k: nat :: k > 0 && Ancestor(rig, id, k) == Some(a)
  }

  ghost predicate Dangling(rig: Rig, id: string) {
    exists a :: Above(rig, id, a) && a !in rig.locals
  }

  ghost predicate Cyclic(rig: Rig, id: string) {
    exists a :: Above(rig, id, a) && StrictlyAbove(rig, a, a)
  }

  ghost predicate Malformed(rig: Rig, id: string) {
    exists a :: Above(rig, id, a) && a in rig.locals && !Good(rig, a)
  }

  lemma {:induction false} AncestorOfAncestor(rig: Rig, id: string, j: nat, k: nat)
    requires Ancestor(rig, id, j).Some?
    ensures Ancestor(rig, id, j + k) == Ancestor(rig, Ancestor(rig, id, j).value, k)
    decreases j
  {
    if j > 0 { AncestorOfAncestor(rig, rig.locals[id].parent, j - 1, k); }
  }

  lemma ParentAbove(rig: Rig, id: string, a: string)
    requires id in rig.locals && rig.locals[id].parent != ""
    requires Above(rig, rig.locals[id].parent, a)
    ensures StrictlyAbove(rig, id, a) && Above(rig, id, a)
  {
    var k: nat :| Ancestor(rig, rig.locals[id].parent, k) == Some(a);
    assert Ancestor(rig, id, k + 1) == Some(a);
  }

  lemma {:induction false} GroundedIsSound(rig: Rig, id: string, n: nat, k: nat, a: string)
    requires Grounded(rig, id, n) && Ancestor(rig, id, k) == Some(a)
    ensures k < n && Grounded(rig, a, n - k)
    decreases k
  {
    if k > 0 { GroundedIsSound(rig, rig.locals[id].parent, n - 1, k - 1, a); }
  }

  /** A bone on its own chain has ancestors at every distance, so the chain never ends. */
  lemma {:induction false} RoundAndRound(rig: Rig, a: string, k: nat, times: nat)
    requires k > 0 && Ancestor(rig, a, k) == Some(a)
    ensures Ancestor(rig, a, times * k) == Some(a)
  {
    if times == 0 {
      assert times * k == 0;
    } else {
      RoundAndRound(rig, a, k, times - 1);
      AncestorOfAncestor(rig, a, (times - 1) * k, k);
      assert (times - 1) * k + k == times * k;
    }
  }

  lemma NoFlawWhenGrounded(rig: Rig, id: string, n: nat)
    requires Grounded(rig, id, n)
    ensures !Dangling(rig, id) && !Cyclic(rig, id) && !Malformed(rig, id)
  {
    forall a, k: nat | Ancestor(rig, id, k) == Some(a) ensures Good(rig, a) && !StrictlyAbove(rig, a, a) {
      GroundedIsSound(rig, id, n, k, a);
      forall j: nat | j > 0 && Ancestor(rig, a, j) == Some(a) ensures false {
        RoundAndRound(rig, a, j, n);
        assert n * j >= n;
        GroundedIsSound(rig, a, n - k, n * j, a);
      }
    }
  }

  /** `a` is among the first `m + 1` bones of the chain. */
  ghost predicate Met(rig: Rig, id: string, m: nat, a: string) {
    exists k: nat :: k <= m && Ancestor(rig, id, k) == Some(a)
  }

  lemma MetStep(rig: Rig, id: string, m: nat, a: string)
    requires m > 0
    ensures Met(rig, id, m, a) <==> Met(rig, id, m - 1, a) || Ancestor(rig, id, m) == Some(a)
  {
    if Met(rig, id, m, a) {
      var k: nat :| k <= m && Ancestor(rig, id, k) == Some(a);
      assert k < m ==> k <= m - 1;
    }
  }

  /** A chain without flaws that is still going after `m` bones has met `m + 1` different bones. */
  lemma {:induction false} ChainBones(rig: Rig, id: string, m: nat) returns (met: set<string>)
    requires !Dangling(rig, id) && !Cyclic(rig, id) && Ancestor(rig, id, m).Some?
    ensures met <= rig.locals.Keys && |met| == m + 1
    ensures forall a :: a in met <==> Met(rig, id, m, a)
  {
    var last := Ancestor(rig, id, m).value;
    assert Above(rig, id, last);
    if m == 0 {
      met := {last};
      assert Ancestor(rig, id, 0) == Some(last);
    } else {
      EarlierAncestor(rig, id, m);
      var before := ChainBones(rig, id, m - 1);
      if last in before {
        var k: nat :| k <= m - 1 && Ancestor(rig, id, k) == Some(last);
        AncestorOfAncestor(rig, id, k, m - k);
        assert StrictlyAbove(rig, last, last);
      }
      met := before + {last};
      forall a ensures a in met <==> Met(rig, id, m, a) { MetStep(rig, id, m, a); }
    }
  }

  lemma EarlierAncestor(rig: Rig, id: string, m: nat)
    requires m > 0 && Ancestor(rig, id, m).Some?
    ensures Ancestor(rig, id, m - 1).Some?
    decreases m
  {
    if m > 1 { EarlierAncestor(rig, rig.locals[id].parent, m - 1); }
  }

  lemma {:induction false} EndsGrounded(rig: Rig, id: string, n: nat)
    requires !Dangling(rig, id) && !Malformed(rig, id) && Ancestor(rig, id, n).None?
    ensures Grounded(rig, id, n)
    decreases n
  {
    assert Above(rig, id, id) by { assert Ancestor(rig, id, 0) == Some(id); }
    var parent := rig.locals[id].parent;
    if parent != "" {
      forall a | Above(rig, parent, a) ensures Above(rig, id, a) { ParentAbove(rig, id, a); }
      EndsGrounded(rig, parent, n - 1);
    }
  }

  /** A bone has a place in the world exactly when its chain is neither dangling nor cyclic nor malformed. */
  lemma PlaceableIff(rig: Rig, id: string)
    ensures Placeable(rig, id) <==> !Dangling(rig, id) && !Cyclic(rig, id) && !Malformed(rig, id)
  {
    if Placeable(rig, id) {
      var n: nat :| Grounded(rig, id, n);
      NoFlawWhenGrounded(rig, id, n);
    }
    if !Dangling(rig, id) && !Cyclic(rig, id) && !Malformed(rig, id) {
      var n := |rig.locals.Keys|;
      if Ancestor(rig, id, n).Some? {
        var met := ChainBones(rig, id, n);
        SubsetCardinality(met, rig.locals.Keys);
      }
      EndsGrounded(rig, id, n);
    }
  }

  // The evaluator.

  /** The error names a bone on the chain of `id`, and says what is wrong with it. */
  ghost predicate Explains(rig: Rig, id: string, e: Error) {
    && Above(rig, id, e.id)
    && match e
       case Cycle(a) => StrictlyAbove(rig, a, a)
       case MissingBone(a) => a !in rig.locals
       case BadTranslation(a) => a in rig.locals && rig.locals[a].t.None?
       case BadRotation(a) => a in rig.locals && (rig.locals[a].r.None? || Offset(rig, a).None?)
  }

  lemma ExplainedIsNotPlaceable(rig: Rig, id: string, e: Error)
    requires Explains(rig, id, e)
    ensures !Placeable(rig, id)
  {
    PlaceableIff(rig, id);
  }

  class Evaluator {
    const rig: Rig
    var world: map<string, World>
    var visiting: set<string>

    constructor (rig: Rig)
      ensures this.rig == rig && world == map[] && visiting == {}
    {
      this.rig := rig;
      world, visiting := map[], {};
    }

    /** Every memoised value is the composition along its chain. */
    ghost predicate Valid()
      reads this
    {
      visiting <= rig.locals.Keys && forall id :: id in world ==> HasWorld(rig, id, world[id])
    }

    /** `resolve`: it terminates because every nested call is visiting one more bone. */
    method Resolve(id: string) returns (r: Result<World>)
      requires Valid() && forall v :: v in visiting ==> StrictlyAbove(rig, v, id)
      modifies this
      ensures r.Ok? ==> Valid() && HasWorld(rig, id, r.value) && id in world
      ensures r.Ok? ==> visiting == old(visiting) && forall k :: k in old(world) ==> k in world
      ensures r.Err? ==> Explains(rig, id, r.error)
      decreases rig.locals.Keys - visiting
    {
      assert Ancestor(rig, id, 0) == Some(id);
      assert Above(rig, id, id);
      if id in world { return Ok(world[id]); }
      if id in visiting { return Err(Cycle(id)); }
      if id !in rig.locals { return Err(MissingBone(id)); }
      var local := rig.locals[id];
      if local.t.None? { return Err(BadTranslation(id)); }
      if local.r.None? || Offset(rig, id).None? { return Err(BadRotation(id)); }
      visiting := visiting + {id};
      var parent := ORIGIN;
      if local.parent != "" {
        CallersBelow(rig, old(visiting), id);
        r := Resolve(local.parent);
        if r.Err? {
          ParentAbove(rig, id, r.error.id);
          return r;
        }
        parent := r.value;
      }
      var value := Under(rig, parent, id);
      StepDown(rig, id, parent);
      visiting := visiting - {id};
      world := world[id := value];
      r := Ok(value);
    }
  }

  lemma CallersBelow(rig: Rig, visiting: set<string>, id: string)
    requires id in rig.locals && rig.locals[id].parent != ""
    requires forall v :: v in visiting ==> StrictlyAbove(rig, v, id)
    ensures forall v :: v in visiting + {id} ==> StrictlyAbove(rig, v, rig.locals[id].parent)
  {
    var parent := rig.locals[id].parent;
    assert Ancestor(rig, parent, 0) == Some(parent);
    assert Ancestor(rig, id, 1) == Some(parent);
    forall v | v in visiting + {id} ensures StrictlyAbove(rig, v, parent) {
      if v != id {
        var k: nat :| k > 0 && Ancestor(rig, v, k) == Some(id);
        AncestorOfAncestor(rig, v, k, 1);
        assert Ancestor(rig, v, k + 1) == Some(parent);
      }
    }
  }

  lemma StepDown(rig: Rig, id: string, parent: World)
    requires Good(rig, id)
    requires if rig.locals[id].parent == "" then parent == ORIGIN else HasWorld(rig, rig.locals[id].parent, parent)
    ensures HasWorld(rig, id, Under(rig, parent, id))
  {
    if rig.locals[id].parent == "" {
      assert Grounded(rig, id, 1) && Along(rig, id, 1) == Under(rig, parent, id);
    } else {
      var n: nat :| Grounded(rig, rig.locals[id].parent, n) && Along(rig, rig.locals[id].parent, n) == parent;
      assert Grounded(rig, id, n + 1) && Along(rig, id, n + 1) == Under(rig, parent, id);
    }
  }

  // What a placed bone looks like from its parent.

  /** The bone's own turn. */
  function Turn(rig: Rig, id: string): real {
    if Good(rig, id) then rig.locals[id].r.value + Offset(rig, id).value else 0.0
  }

  /** The turns of the bone and its ancestors up to the `k`-th, as far as the chain goes. */
  function Turns(rig: Rig, id: string, k: nat): real {
    if k == 0 then 0.0
    else
      var a := Ancestor(rig, id, k - 1);
      Turns(rig, id, k - 1) + if a.Some? then Turn(rig, a.value) else 0.0
  }

  /**
   A root stands at its own translation. Seen from its parent and turned back by the parent's angle, any other
   bone stands at its own translation: first `x` along the parent's direction, then `y` to the left of it.
   */
  predicate StandsRight(rig: Rig, id: string, w: World, parent: World)
    requires Good(rig, id)
  {
    var (tx, ty) := rig.locals[id].t.value;
    var c, s := rig.cos(parent.angle), rig.sin(parent.angle);
    if rig.locals[id].parent == "" then rig.cos(0.0) == 1.0 && rig.sin(0.0) == 0.0 ==> w.x == tx && w.y == ty
    else
      c * c + s * s == 1.0 ==>
        (w.x - parent.x) * c + (w.y - parent.y) * s == tx && (w.y - parent.y) * c - (w.x - parent.x) * s == ty
  }

  /** A rotation with `c * c + s * s == 1` is undone by the opposite one. */
  lemma TurnedBack(c: real, s: real, tx: real, ty: real)
    requires c * c + s * s == 1.0
    ensures (tx * c - ty * s) * c + (tx * s + ty * c) * s == tx
    ensures (tx * s + ty * c) * c - (tx * c - ty * s) * s == ty
  {
    assert (tx * c - ty * s) * c + (tx * s + ty * c) * s == tx * (c * c + s * s);
    assert (tx * s + ty * c) * c - (tx * c - ty * s) * s == ty * (c * c + s * s);
  }

  lemma UnderStands(rig: Rig, id: string, parent: World)
    requires Good(rig, id) && (rig.locals[id].parent == "" ==> parent == ORIGIN)
    ensures StandsRight(rig, id, Under(rig, parent, id), parent)
    ensures Under(rig, parent, id).angle == parent.angle + Turn(rig, id)
  {
    var (tx, ty) := rig.locals[id].t.value;
    var c, s := rig.cos(parent.angle), rig.sin(parent.angle);
    if c * c + s * s == 1.0 {
      TurnedBack(c, s, tx, ty);
      var w := Under(rig, parent, id);
      assert w.x - parent.x == tx * c - ty * s && w.y - parent.y == tx * s + ty * c;
    }
  }

  lemma {:induction false} TurnsFromParent(rig: Rig, id: string, k: nat)
    requires id in rig.locals
    ensures Turns(rig, id, k + 1) ==
      Turn(rig, id) + if rig.locals[id].parent != "" then Turns(rig, rig.locals[id].parent, k) else 0.0
  {
    if k > 0 { TurnsFromParent(rig, id, k - 1); }
  }

  /** The angle of a bone is the sum of the turns of the bone and all its ancestors. */
  lemma {:induction false} AngleIsSum(rig: Rig, id: string, n: nat)
    requires Grounded(rig, id, n)
    ensures Along(rig, id, n).angle == Turns(rig, id, n)
    decreases n
  {
    TurnsFromParent(rig, id, n - 1);
    if rig.locals[id].parent != "" { AngleIsSum(rig, rig.locals[id].parent, n - 1); }
  }

  /** The bone's place in the map, told without the recursion. */
  ghost predicate PlacedRight(rig: Rig, world: map<string, World>, id: string) {
    && id in world && Good(rig, id)
    && (rig.locals[id].parent != "" ==> rig.locals[id].parent in world)
    && StandsRight(rig, id, world[id], if rig.locals[id].parent == "" then ORIGIN else world[rig.locals[id].parent])
    && exists n :: Ancestor(rig, id, n).None? && world[id].angle == Turns(rig, id, n)
  }

  lemma {:induction false} ChainEnds(rig: Rig, id: string, n: nat) returns (k: nat)
    requires Grounded(rig, id, n)
    ensures k <= n && Ancestor(rig, id, k).None? && Turns(rig, id, k) == Turns(rig, id, n)
    ensures Grounded(rig, id, k)
    decreases n
  {
    if rig.locals[id].parent == "" {
      k := 1;
      ShortChain(rig, id, n);
    } else {
      var m := ChainEnds(rig, rig.locals[id].parent, n - 1);
      k := m + 1;
      TurnsFromParent(rig, id, n - 1);
      TurnsFromParent(rig, id, m);
    }
  }

  lemma {:induction false} ShortChain(rig: Rig, id: string, n: nat)
    requires n > 0 && id in rig.locals && rig.locals[id].parent == ""
    ensures Turns(rig, id, n) == Turns(rig, id, 1)
  {
    if n > 1 { ShortChain(rig, id, n - 1); }
  }

  lemma WorldsArePlaced(rig: Rig, world: map<string, World>, id: string)
    requires world.Keys == rig.locals.Keys && forall k :: k in world ==> HasWorld(rig, k, world[k])
    requires id in world
    ensures PlacedRight(rig, world, id)
  {
    var n: nat :| Grounded(rig, id, n) && Along(rig, id, n) == world[id];
    var parent := rig.locals[id].parent;
    var k := ChainEnds(rig, id, n);
    AngleIsSum(rig, id, n);
    if parent == "" {
      UnderStands(rig, id, ORIGIN);
    } else {
      assert Good(rig, parent);
      WorldUnique(rig, parent, Along(rig, parent, n - 1), world[parent]);
      UnderStands(rig, id, world[parent]);
    }
  }

  /**
   `evaluateBoneWorld`, for any order of the keys. It succeeds exactly when every bone can be placed, and then
   gives every bone its place: from its parent by its own translation, turned by the turns of all its ancestors.
   */
  method EvaluateBoneWorld(rig: Rig, keys: seq<string>) returns (r: Result<map<string, World>>)
    requires forall id :: id in keys <==> id in rig.locals
    ensures r.Ok? <==> forall id :: id in rig.locals ==> Placeable(rig, id)
    ensures r.Ok? ==> r.value.Keys == rig.locals.Keys
    ensures r.Ok? ==> forall id :: id in rig.locals ==> HasWorld(rig, id, r.value[id]) && PlacedRight(rig, r.value, id)
    ensures r.Err? ==> exists id :: id in rig.locals && Explains(rig, id, r.error)
  {
    var evaluator := new Evaluator(rig);
    var i := 0;
    while i < |keys|
      invariant i <= |keys|
      invariant evaluator.rig == rig && evaluator.Valid() && evaluator.visiting == {}
      invariant forall j :: 0 <= j < i ==> keys[j] in evaluator.world
    {
      var one := evaluator.Resolve(keys[i]);
      if one.Err? {
        assert keys[i] in keys;
        ExplainedIsNotPlaceable(rig, keys[i], one.error);
        return Err(one.error);
      }
      i := i + 1;
    }
    forall id | id in evaluator.world ensures id in rig.locals && Placeable(rig, id) {
      var n: nat :| Grounded(rig, id, n) && Along(rig, id, n) == evaluator.world[id];
    }
    forall id | id in rig.locals ensures id in evaluator.world && Placeable(rig, id) {
      assert id in keys;
    }
    assert evaluator.world.Keys == rig.locals.Keys;
    forall id | id in rig.locals ensures PlacedRight(rig, evaluator.world, id) {
      WorldsArePlaced(rig, evaluator.world, id);
    }
    r := Ok(evaluator.world);
  }

  /** The world transform of a bone is determined by its chain: the memo and the key order cannot matter. */
  lemma WorldUnique(rig: Rig, id: string, v: World, w: World)
    requires HasWorld(rig, id, v) && HasWorld(rig, id, w)
    ensures v == w
  {
    var m: nat :| Grounded(rig, id, m) && Along(rig, id, m) == v;
    var n: nat :| Grounded(rig, id, n) && Along(rig, id, n) == w;
    AlongUnique(rig, id, m, n);
  }
}
