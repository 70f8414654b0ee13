/** The static `ModelItem::$current` slot and the three methods that swap it:
    `columns`, `filters` and `form` save the slot, point it at `$this`, run the callback,
    restore the saved value and return `$this`; `columns` also calls `Column::control()`
    just before restoring. Callbacks are written as step lists, so that the descriptors
    the builder functions register with are visible. */
module CurrentSlot {
  import opened Wrappers
  import opened ModelItem

  /** Object identity of a descriptor. */
  type Id = nat

  /** The descriptors by identity, the `$current` slot, and for every
      `Column::control()` call the value the slot held at that moment. */
  datatype World<Col, Flt> = World(
    items: map<Id, Descriptor<Col, Flt>>,
    current: Option<Id>,
    controlLog: seq<Option<Id>>)

  /** Which of the three context-swapping methods opens a block. */
  datatype Block = ColumnsBlock | FiltersBlock | FormBlock

  /** What a callback does: a builder function registering a column or filter with
      `ModelItem::$current`, or a nested `$item->columns/filters/form(callback)`. */
  datatype Step<Col, Flt> =
    | RegisterColumn(column: Col)
    | RegisterFilter(filter: Flt)
    | Open(kind: Block, target: Id, body: seq<Step<Col, Flt>>)

  /** A registration step applied to the descriptor the context points at; when the
      context is empty or unknown there is none to register with, and the callback
      fails. */
  function Register<Col, Flt>(items: map<Id, Descriptor<Col, Flt>>, context: Option<Id>,
                              step: Step<Col, Flt>): (r: Option<map<Id, Descriptor<Col, Flt>>>)
    requires !step.Open?
    ensures r.Some? <==> context.Some? && context.value in items
    ensures r.Some? ==> context.value in r.value && r.value == items[context.value := r.value[context.value]]
    ensures r.Some? && step.RegisterColumn? ==>
              r.value[context.value].columns == items[context.value].columns + [step.column]
    ensures r.Some? && step.RegisterFilter? ==>
              r.value[context.value].filters == items[context.value].filters + [step.filter]
  {
    if context.None? || context.value !in items then None
    else
      var d := items[context.value];
      match step
      case RegisterColumn(c) => Some(items[context.value := AddColumn(d, c)])
      case RegisterFilter(f) => Some(items[context.value := AddFilter(d, f)])
  }

  /** Runs a callback's steps against the global slot; `None` when a step fails. A
      successful run leaves the slot as it found it, registers no new descriptor and
      only appends to the `Column::control()` log. */
  function Run<Col, Flt>(w: World<Col, Flt>, steps: seq<Step<Col, Flt>>): (r: Option<World<Col, Flt>>)
    ensures r.Some? ==> r.value.current == w.current
    ensures r.Some? ==> r.value.items.Keys == w.items.Keys
    ensures r.Some? ==> |w.controlLog| <= |r.value.controlLog|
                        && r.value.controlLog[..|w.controlLog|] == w.controlLog
    decreases steps, 0
  {
    if steps == [] then Some(w)
    else match steps[0]
      case Open(kind, t, body) =>
        (match Swap(w, kind, t, body)
         case Some(res) => Run(res.0, steps[1..])
         case None => None)
      case _ =>
        (match Register(w.items, w.current, steps[0])
         case Some(items) => Run(w.(items := items), steps[1..])
         case None => None)
  }

  /** `$this->columns/filters/form($callback)` for `$this` = `t`: the world afterwards
      and the returned descriptor. */
  function Swap<Col, Flt>(w: World<Col, Flt>, kind: Block, t: Id, body: seq<Step<Col, Flt>>)
    : (r: Option<(World<Col, Flt>, Id)>)
    ensures r.Some? ==> r.value.0.current == w.current && r.value.1 == t
    ensures r.Some? ==> r.value.0.items.Keys == w.items.Keys
    ensures r.Some? ==> |w.controlLog| <= |r.value.0.controlLog|
                        && r.value.0.controlLog[..|w.controlLog|] == w.controlLog
    decreases body, 1
  {
    var saved := w.current;
    match Run(w.(current := Some(t)), body)
    case None => None
    case Some(w1) =>
      var w2 := if kind == ColumnsBlock then w1.(controlLog := w1.controlLog + [w1.current]) else w1;
      Some((w2.(current := saved), t))
  }

  /** The same callbacks with the context passed explicitly down the block structure
      instead of kept in a global slot: each block runs its body in its own target's
      context, and a step outside any block uses the context it was given. */
  function RunIn<Col, Flt>(items: map<Id, Descriptor<Col, Flt>>, log: seq<Option<Id>>,
                           context: Option<Id>, steps: seq<Step<Col, Flt>>)
    : Option<(map<Id, Descriptor<Col, Flt>>, seq<Option<Id>>)>
    decreases steps
  {
    if steps == [] then Some((items, log))
    else match steps[0]
      case Open(kind, t, body) =>
        (match RunIn(items, log, Some(t), body)
         case Some(res) =>
           RunIn(res.0, if kind == ColumnsBlock then res.1 + [Some(t)] else res.1, context, steps[1..])
         case None => None)
      case _ =>
        (match Register(items, context, steps[0])
         case Some(items') => RunIn(items', log, context, steps[1..])
         case None => None)
  }

  /** The world `RunIn`'s result describes once the slot holds `current` again. */
  function Restored<Col, Flt>(r: Option<(map<Id, Descriptor<Col, Flt>>, seq<Option<Id>>)>,
                              current: Option<Id>): Option<World<Col, Flt>>
  {
    match r
    case Some(res) => Some(World(res.0, current, res.1))
    case None => None
  }

  /** The save/restore discipline nests like a stack: running callbacks against the
      global slot is running them with the context passed explicitly, and the slot
      ends as it began. */
  lemma {:induction false} RunIsLexicallyScoped<Col, Flt>(w: World<Col, Flt>, steps: seq<Step<Col, Flt>>)
    ensures Run(w, steps) == Restored(RunIn(w.items, w.controlLog, w.current, steps), w.current)
    decreases steps, 0
  {
    if steps != [] {
      match steps[0]
      case Open(kind, t, body) =>
        SwapIsLexicallyScoped(w, kind, t, body);
        var inner := RunIn(w.items, w.controlLog, Some(t), body);
        if inner.Some? {
          var log := if kind == ColumnsBlock then inner.value.1 + [Some(t)] else inner.value.1;
          RunIsLexicallyScoped(World(inner.value.0, w.current, log), steps[1..]);
        }
      case _ =>
        var items := Register(w.items, w.current, steps[0]);
        if items.Some? {
          RunIsLexicallyScoped(w.(items := items.value), steps[1..]);
        }
    }
  }

  /** A block runs its body with the slot at `t`, calls `Column::control()` (for
      `columns`) while the slot is still `t`, restores the slot and returns `t`. */
  lemma {:induction false} SwapIsLexicallyScoped<Col, Flt>(w: World<Col, Flt>, kind: Block, t: Id,
                                                          body: seq<Step<Col, Flt>>)
    ensures var inner := RunIn(w.items, w.controlLog, Some(t), body);
      && (Swap(w, kind, t, body).Some? <==> inner.Some?)
      && (inner.Some? ==>
            var log := if kind == ColumnsBlock then inner.value.1 + [Some(t)] else inner.value.1;
            Swap(w, kind, t, body) == Some((World(inner.value.0, w.current, log), t)))
    decreases body, 1
  {
    RunIsLexicallyScoped(w.(current := Some(t)), body);
  }

  /** `outer.columns(() => { X; inner.filters(() => { Y }); Z })`: X and Z go to
      `outer`, Y goes to `inner`, `Column::control()` runs once with `outer` current,
      and the slot is restored. */
  lemma NestedBlocksRegisterWithTheirOwner<Col, Flt>(w: World<Col, Flt>, outer: Id, inner: Id,
                                                     x: Col, y: Flt, z: Col)
    requires outer in w.items && inner in w.items && outer != inner
    ensures var steps := [Open(ColumnsBlock, outer,
                               [RegisterColumn(x), Open(FiltersBlock, inner, [RegisterFilter(y)]),
                                RegisterColumn(z)])];
      var r := Run(w, steps);
      && r.Some?
      && r.value.current == w.current
      && r.value.items.Keys == w.items.Keys
      && r.value.items[outer] == w.items[outer].(columns := w.items[outer].columns + [x, z])
      && r.value.items[inner] == w.items[inner].(filters := w.items[inner].filters + [y])
      && (forall id :: id in w.items && id != outer && id != inner ==> r.value.items[id] == w.items[id])
      && r.value.controlLog == w.controlLog + [Some(outer)]
  {
    var innerBody := [RegisterFilter(y)];
    var outerBody := [RegisterColumn(x), Open(FiltersBlock, inner, innerBody), RegisterColumn(z)];
    var steps := [Open(ColumnsBlock, outer, outerBody)];
    var items3 := w.items[outer := AddColumn(w.items[outer], x)][inner := AddFilter(w.items[inner], y)]
                         [outer := AddColumn(AddColumn(w.items[outer], x), z)];
    assert Run(w, steps) == Some(World(items3, w.current, w.controlLog + [Some(outer)])) by {
      RunIsLexicallyScoped(w, steps);
      NestedBodyRunsInOwnContexts(w.items, w.controlLog, outer, inner, x, y, z);
      assert steps[1..] == [];
    }
    NestedItems(w.items, outer, inner, x, y, z);
  }

  /** The descriptors after the nested example's registrations. */
  lemma NestedItems<Col, Flt>(items: map<Id, Descriptor<Col, Flt>>, outer: Id, inner: Id, x: Col, y: Flt, z: Col)
    requires outer in items && inner in items && outer != inner
    ensures var items3 := items[outer := AddColumn(items[outer], x)][inner := AddFilter(items[inner], y)]
                               [outer := AddColumn(AddColumn(items[outer], x), z)];
      && items3.Keys == items.Keys
      && items3[outer] == items[outer].(columns := items[outer].columns + [x, z])
      && items3[inner] == items[inner].(filters := items[inner].filters + [y])
      && (forall id :: id in items && id != outer && id != inner ==> items3[id] == items[id])
  {
    assert items[outer].columns + [x] + [z] == items[outer].columns + [x, z];
  }

  /** The body of the nested example, run with the context passed explicitly. */
  lemma NestedBodyRunsInOwnContexts<Col, Flt>(items: map<Id, Descriptor<Col, Flt>>, log: seq<Option<Id>>,
                                              outer: Id, inner: Id, x: Col, y: Flt, z: Col)
    requires outer in items && inner in items && outer != inner
    ensures RunIn(items, log, Some(outer),
                  [RegisterColumn(x), Open(FiltersBlock, inner, [RegisterFilter(y)]), RegisterColumn(z)])
            == Some((items[outer := AddColumn(items[outer], x)][inner := AddFilter(items[inner], y)]
                          [outer := AddColumn(AddColumn(items[outer], x), z)], log))
  {
    var innerBody := [RegisterFilter(y)];
    var outerBody := [RegisterColumn(x), Open(FiltersBlock, inner, innerBody), RegisterColumn(z)];
    var items1 := items[outer := AddColumn(items[outer], x)];
    var items2 := items1[inner := AddFilter(items1[inner], y)];
    var items3 := items2[outer := AddColumn(items2[outer], z)];
    assert items1[inner] == items[inner] && items2[outer] == items1[outer];
    assert RunIn(items1, log, Some(inner), innerBody) == Some((items2, log));
    assert RunIn(items2, log, Some(outer), [RegisterColumn(z)]) == Some((items3, log));
    assert outerBody[1..][1..] == [RegisterColumn(z)];
    assert RunIn(items1, log, Some(outer), outerBody[1..]) == Some((items3, log));
  }
}
