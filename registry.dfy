/** The capability registries of humane_rework/src/definitions/mod.rs:
    `HashMap<HumaneSegments, &dyn Capability>` built with `from_iter` from
    every capability's pattern text, and looked up with the step the user
    wrote. The map is a sequence of entries searched with `Eq(query, key)`,
    the comparison the hash table makes (equal patterns hash alike, see
    `Segments.EqImpliesSameHash`, so the table meets every such key). */
module Registry {
  import opened Wrappers
  import opened Segments
  import opened Parser

  type Registry<C> = seq<(Pattern, C)>

  /** The index of the key that `query` is `eq` to, if any. */
  function FindKey<C>(reg: Registry<C>, query: Pattern): (r: Option<nat>)
    ensures r.Some? ==> r.value < |reg| && Eq(query, reg[r.value].0)
    ensures r.None? <==> forall i :: 0 <= i < |reg| ==> !Eq(query, reg[i].0)
    ensures r.Some? ==> forall i :: 0 <= i < r.value ==> !Eq(query, reg[i].0)
    decreases |reg|
  {
    if |reg| == 0 then None
    else if Eq(query, reg[0].0) then Some(0)
    else match FindKey(reg[1..], query)
      case None => None
      case Some(i) => Some(i + 1)
  }

  /** `HashMap::insert`: an existing key `eq` to the new one keeps its
      place and its own segments and takes the new capability; otherwise
      the entry is added. */
  function Insert<C>(reg: Registry<C>, key: Pattern, c: C): (r: Registry<C>)
    ensures FindKey(reg, key).Some? ==> |r| == |reg|
    ensures FindKey(reg, key).None? ==> r == reg + [(key, c)]
    ensures FindKey(reg, key).Some? ==>
              forall i :: 0 <= i < |reg| ==>
                (r[i].0 == reg[i].0 && r[i].1 == (if i == FindKey(reg, key).value then c else reg[i].1))
    ensures KeysDistinct(reg) ==> KeysDistinct(r)
  {
    match FindKey(reg, key)
    case None => reg + [(key, c)]
    case Some(i) => reg[i := (reg[i].0, c)]
  }

  /** `HashMap::get_key_value`. */
  function GetKeyValue<C>(reg: Registry<C>, query: Pattern): Option<(Pattern, C)>
  {
    match FindKey(reg, query)
    case None => None
    case Some(i) => Some(reg[i])
  }

  predicate ContainsKey<C>(reg: Registry<C>, query: Pattern)
  {
    FindKey(reg, query).Some?
  }

  /** No key is `eq` to a key inserted before it: what `Insert` keeps. */
  predicate KeysDistinct<C>(reg: Registry<C>)
  {
    forall i, j :: 0 <= i < j < |reg| ==> !Eq(reg[j].0, reg[i].0)
  }

  /** `register_instructions`, `register_retrievers` and
      `register_assertions`: each capability's pattern text is parsed (an
      unparseable one is the `expect` panic with `message`) and inserted in
      turn. It never returns an error value: it panics or succeeds. */
  function Register<C>(defs: seq<(string, C)>, message: string): (r: Result<Registry<C>, ParseError>)
    ensures !r.Err?
    decreases |defs|
  {
    if |defs| == 0 then Ok([])
    else
      match Register(defs[..|defs| - 1], message)
      case Ok(reg) =>
        (match Parse(defs[|defs| - 1].0)
         case Ok(p) => Ok(Insert(reg, p, defs[|defs| - 1].1))
         case Err(_) => Panic(message)
         case Panic(m) => Panic(m))
      case Err(e) => Err(e)
      case Panic(m) => Panic(m)
  }

  // ---- lookups ----

  /** Two keys a query is `eq` to are `eq` to each other both ways. */
  lemma CommonMatch(q: Pattern, a: Pattern, b: Pattern)
    requires Eq(q, a) && Eq(q, b)
    ensures Eq(a, b) && Eq(b, a)
  {
    EqCharacterization(q, a);
    EqCharacterization(q, b);
    EqCharacterization(a, b);
    EqCharacterization(b, a);
  }

  /** In a registry `Insert` built, a query is `eq` to at most one key, so
      which matching key the hash table's probing meets first cannot
      matter. */
  lemma AtMostOneMatch<C>(reg: Registry<C>, q: Pattern, i: nat, j: nat)
    requires KeysDistinct(reg) && i < |reg| && j < |reg|
    requires Eq(q, reg[i].0) && Eq(q, reg[j].0)
    ensures i == j
  {
    CommonMatch(q, reg[i].0, reg[j].0);
  }

  /** A lookup finds exactly the entry whose key the query is `eq` to. */
  lemma LookupFinds<C>(reg: Registry<C>, q: Pattern, k: Pattern, c: C)
    requires KeysDistinct(reg) && (k, c) in reg && Eq(q, k)
    ensures GetKeyValue(reg, q) == Some((k, c))
  {
    var i :| 0 <= i < |reg| && reg[i] == (k, c);
    var j := FindKey(reg, q).value;
    AtMostOneMatch(reg, q, i, j);
  }

  /** `eq` chains: a query `eq` to a pattern is `eq` to every key that
      pattern is `eq` to. */
  lemma EqTransitive(q: Pattern, p: Pattern, k: Pattern)
    requires Eq(q, p) && Eq(p, k)
    ensures Eq(q, k)
  {
    EqCharacterization(q, p);
    EqCharacterization(p, k);
    EqCharacterization(q, k);
  }

  // ---- what registering builds ----

  /** A registry's keys are distinct, and every key is the parse of some
      capability's pattern text. */
  lemma {:induction false} RegisterShape<C>(defs: seq<(string, C)>, message: string)
    requires Register(defs, message).Ok?
    ensures KeysDistinct(Register(defs, message).value)
    ensures forall i :: 0 <= i < |Register(defs, message).value| ==>
              exists d :: 0 <= d < |defs| && Parse(defs[d].0) == Ok(Register(defs, message).value[i].0)
    decreases |defs|
  {
    if |defs| > 0 {
      var init := defs[..|defs| - 1];
      var last := defs[|defs| - 1];
      RegisterShape(init, message);
      var reg := Register(init, message).value;
      var p := Parse(last.0).value;
      var r := Register(defs, message).value;
      assert r == Insert(reg, p, last.1);
      forall i | 0 <= i < |r|
        ensures exists d :: 0 <= d < |defs| && Parse(defs[d].0) == Ok(r[i].0)
      {
        if i < |reg| {
          var d :| 0 <= d < |init| && Parse(init[d].0) == Ok(reg[i].0);
          assert defs[d] == init[d];
        } else {
          assert r[i].0 == p;
        }
      }
    }
  }

  /** Every capability's pattern is found by any query `eq` to it: the
      query meets either that pattern or the earlier key it was merged
      into. */
  lemma {:induction false} RegisterCovers<C>(defs: seq<(string, C)>, message: string, d: nat)
    requires Register(defs, message).Ok? && d < |defs|
    ensures Parse(defs[d].0).Ok?
    ensures exists i :: 0 <= i < |Register(defs, message).value|
              && (Register(defs, message).value[i].0 == Parse(defs[d].0).value
                  || Eq(Parse(defs[d].0).value, Register(defs, message).value[i].0))
    decreases |defs|
  {
    var init := defs[..|defs| - 1];
    var last := defs[|defs| - 1];
    var reg := Register(init, message).value;
    var p := Parse(last.0).value;
    var r := Register(defs, message).value;
    assert r == Insert(reg, p, last.1);
    if d < |defs| - 1 {
      RegisterCovers(init, message, d);
      assert defs[d] == init[d];
      var q := Parse(defs[d].0).value;
      var i :| 0 <= i < |reg| && (reg[i].0 == q || Eq(q, reg[i].0));
      assert r[i].0 == reg[i].0;
    } else {
      var f := FindKey(reg, p);
      if f.Some? {
        assert r[f.value].0 == reg[f.value].0;
      } else {
        assert r[|reg|].0 == p;
      }
    }
  }

  /** Any unparseable pattern text makes registering panic. */
  lemma {:induction false} RegisterPanicsOnBadPattern<C>(defs: seq<(string, C)>, message: string, d: nat)
    requires d < |defs| && !Parse(defs[d].0).Ok?
    ensures Register(defs, message).Panic?
    decreases |defs|
  {
    ParseNeverPanics(defs[d].0);
    if d < |defs| - 1 {
      assert defs[..|defs| - 1][d] == defs[d];
      RegisterPanicsOnBadPattern(defs[..|defs| - 1], message, d);
    }
  }

  /** A step `eq` to a registered capability's pattern is found, and the
      key it finds is one it is `eq` to. */
  lemma RegisteredIsFound<C>(defs: seq<(string, C)>, message: string, d: nat, q: Pattern)
    requires Register(defs, message).Ok? && d < |defs|
    requires Parse(defs[d].0).Ok? && Eq(q, Parse(defs[d].0).value)
    ensures ContainsKey(Register(defs, message).value, q)
    ensures Eq(q, GetKeyValue(Register(defs, message).value, q).value.0)
  {
    RegisterCovers(defs, message, d);
    var reg := Register(defs, message).value;
    var p := Parse(defs[d].0).value;
    var i :| 0 <= i < |reg| && (reg[i].0 == p || Eq(p, reg[i].0));
    if reg[i].0 != p {
      EqTransitive(q, p, reg[i].0);
    }
  }
}
