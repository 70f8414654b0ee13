/** The descriptor `SleepingOwl\Admin\Models\ModelItem` as an immutable record: its
    settings, its three permission gates, the fluent setters and the `__call` dispatcher
    that turns `as` and `deny…` method names into assignments. */
module ModelItem {
  import opened Wrappers
  import opened Php
  import opened Strings
  import opened DenyName

  /** What `get_class($this)` names in a MethodNotFound error. */
  const ClassName := "SleepingOwl\\Admin\\Models\\ModelItem"

  /** A permission gate: a stored boolean, or a stored value that is called at query
      time and whose truthy answer means "deny". */
  datatype Gate = Fixed(allow: bool) | Denier(deny: Callable)

  /** The PHP value a gate holds: the boolean itself, or the stored callable. */
  function GateValue(g: Gate): (v: PhpValue)
    ensures v.Bool? <==> g.Fixed?
    ensures g.Fixed? ==> v == Bool(g.allow)
    ensures g.Denier? ==> v == g.deny
  {
    match g
    case Fixed(allow) => Bool(allow)
    case Denier(f) => f
  }

  /** The descriptor's state. `Col` and `Flt` are the column and filter objects, opaque
      here. `eagerLoad` is the `$with` property. `dynamic` holds the properties a
      `deny…` call writes under a name the class does not declare. */
  datatype Descriptor<Col, Flt> = Descriptor(
    modelClass: string,
    alias: PhpValue,
    columns: seq<Col>,
    eagerLoad: PhpValue,
    filters: seq<Flt>,
    orderable: PhpValue,
    creatable: Gate,
    editable: Gate,
    deletable: Gate,
    title: PhpValue,
    form: PhpValue,
    dynamic: map<string, PhpValue>)

  /** The errors `__call` can raise. */
  datatype Error =
    | MethodNotFound(className: string, methodName: string)
    | TooFewArguments(callee: string)
    | BadPropertyName(property: string)

  /** What a dispatched call leaves behind: the descriptor it returned, or the error it
      raised together with the state at that moment. */
  datatype CallResult<Col, Flt> =
    | Returned(d: Descriptor<Col, Flt>)
    | Threw(d: Descriptor<Col, Flt>, error: Error)

  // ---------------------------------------------------------------- construction

  /** A new descriptor. The default alias (inflected from the class name) and the
      orderable probe are inputs; `form` is the handle of the Form created for it. */
  function Create<Col, Flt>(modelClass: string, defaultAlias: string, orderable: bool,
                            form: PhpValue): Descriptor<Col, Flt>
  {
    Descriptor(modelClass, Str(defaultAlias), [], Arr([]), [], Bool(orderable),
               Fixed(true), Fixed(true), Fixed(true), Null, form, map[])
  }

  // ---------------------------------------------------------------- permission gates

  /** Whether a gate allows the action when its closure would be called with `args`. */
  function Allows(g: Gate, call: Caller, args: seq<PhpValue>): bool {
    match g
    case Fixed(allow) => allow
    case Denier(f) => !Truthy(call(f, args))
  }

  /** `isCreatable()`: the closure is called with no arguments. */
  function IsCreatable<Col, Flt>(d: Descriptor<Col, Flt>, call: Caller): (r: bool)
    ensures d.creatable.Fixed? ==> r == d.creatable.allow
    ensures d.creatable.Denier? ==> r == !Truthy(call(d.creatable.deny, []))
  {
    Allows(d.creatable, call, [])
  }

  /** `isEditable($instance)`: the closure is called with the record instance. */
  function IsEditable<Col, Flt>(d: Descriptor<Col, Flt>, call: Caller, instance: PhpValue): (r: bool)
    ensures d.editable.Fixed? ==> r == d.editable.allow
    ensures d.editable.Denier? ==> r == !Truthy(call(d.editable.deny, [instance]))
  {
    Allows(d.editable, call, [instance])
  }

  /** `isDeletable($instance)`: the closure is called with the record instance. */
  function IsDeletable<Col, Flt>(d: Descriptor<Col, Flt>, call: Caller, instance: PhpValue): (r: bool)
    ensures d.deletable.Fixed? ==> r == d.deletable.allow
    ensures d.deletable.Denier? ==> r == !Truthy(call(d.deletable.deny, [instance]))
  {
    Allows(d.deletable, call, [instance])
  }

  /** A new descriptor allows creating, editing and deleting whatever the instance, and
      starts with the default alias and no columns, filters or eager loads. */
  lemma CreateAllowsEverything<Col, Flt>(modelClass: string, defaultAlias: string,
                                         orderable: bool, form: PhpValue,
                                         call: Caller, instance: PhpValue)
    ensures var d := Create<Col, Flt>(modelClass, defaultAlias, orderable, form);
      && IsCreatable(d, call) && IsEditable(d, call, instance) && IsDeletable(d, call, instance)
      && GetAlias(d) == Str(defaultAlias) && d.columns == [] && d.filters == []
      && GetWith(d) == Arr([]) && IsOrderable(d) == Bool(orderable) && d.title == Null
  {
  }

  // ---------------------------------------------------------------- plain settings

  function GetAlias<Col, Flt>(d: Descriptor<Col, Flt>): PhpValue {
    d.alias
  }

  /** `setAlias($alias)`: overwrites the alias and nothing else. */
  function SetAlias<Col, Flt>(d: Descriptor<Col, Flt>, alias: PhpValue): (r: Descriptor<Col, Flt>)
    ensures GetAlias(r) == alias
    ensures r.(alias := d.alias) == d
  {
    d.(alias := alias)
  }

  function GetWith<Col, Flt>(d: Descriptor<Col, Flt>): PhpValue {
    d.eagerLoad
  }

  /** `with(...)`: an array first argument becomes the list (later arguments are
      dropped); otherwise the whole argument list does. The list is replaced, not
      extended, and nothing else changes. */
  function With<Col, Flt>(d: Descriptor<Col, Flt>, args: seq<PhpValue>): (r: Descriptor<Col, Flt>)
    ensures |args| > 0 && args[0].Arr? ==> GetWith(r) == args[0]
    ensures !(|args| > 0 && args[0].Arr?) ==> GetWith(r) == Arr(args)
    ensures GetWith(r).Arr?
    ensures r.(eagerLoad := d.eagerLoad) == d
  {
    if |args| > 0 && args[0].Arr? then d.(eagerLoad := args[0])
    else d.(eagerLoad := Arr(args))
  }

  /** `with([a, b, …])` and `with(a, b, …)` set the same list when `a` is not itself an
      array, and a second `with` forgets the first. */
  lemma WithCallShapesAgree<Col, Flt>(d: Descriptor<Col, Flt>, names: seq<PhpValue>,
                                      earlier: seq<PhpValue>)
    requires names == [] || !names[0].Arr?
    ensures With(d, [Arr(names)]) == With(d, names)
    ensures With(With(d, earlier), names) == With(d, names)
  {
  }

  function IsOrderable<Col, Flt>(d: Descriptor<Col, Flt>): PhpValue {
    d.orderable
  }

  /** `addColumn($column)`: appends at the end, keeping the earlier columns. */
  function AddColumn<Col, Flt>(d: Descriptor<Col, Flt>, column: Col): (r: Descriptor<Col, Flt>)
    ensures |r.columns| == |d.columns| + 1
    ensures r.columns[..|d.columns|] == d.columns && r.columns[|d.columns|] == column
    ensures r.(columns := d.columns) == d
  {
    d.(columns := d.columns + [column])
  }

  /** `addFilter($filter)`: appends at the end, keeping the earlier filters. */
  function AddFilter<Col, Flt>(d: Descriptor<Col, Flt>, filter: Flt): (r: Descriptor<Col, Flt>)
    ensures |r.filters| == |d.filters| + 1
    ensures r.filters[..|d.filters|] == d.filters && r.filters[|d.filters|] == filter
    ensures r.(filters := d.filters) == d
  {
    d.(filters := d.filters + [filter])
  }

  /** `title($title)`: overwrites the title and nothing else. */
  function SetTitle<Col, Flt>(d: Descriptor<Col, Flt>, title: PhpValue): (r: Descriptor<Col, Flt>)
    ensures r.title == title
    ensures r.(title := d.title) == d
  {
    d.(title := title)
  }

  /** The attribute map `renderTableAttributes` hands to the HTML builder: exactly
      `data-ordering => 'false'` when the orderable flag is falsy, empty otherwise. */
  function TableAttributes<Col, Flt>(d: Descriptor<Col, Flt>): (r: map<string, string>)
    ensures r.Keys <= {"data-ordering"}
    ensures "data-ordering" in r <==> !Truthy(IsOrderable(d))
    ensures "data-ordering" in r ==> r["data-ordering"] == "false"
  {
    if !Truthy(d.orderable) then map["data-ordering" := "false"] else map[]
  }

  /** `renderTableAttributes()`, with the HTML builder's rendering as a parameter: an
      orderable entity renders the empty attribute list, any other the single
      `data-ordering` attribute. */
  function RenderTableAttributes<Col, Flt>(d: Descriptor<Col, Flt>,
                                          render: map<string, string> -> string): (r: string)
    ensures Truthy(IsOrderable(d)) ==> r == render(map[])
    ensures !Truthy(IsOrderable(d)) ==> r == render(map["data-ordering" := "false"])
  {
    var attributes := TableAttributes(d);
    assert Truthy(IsOrderable(d)) ==> attributes == map[];
    assert !Truthy(IsOrderable(d)) ==> attributes == map["data-ordering" := "false"];
    render(attributes)
  }

  // ---------------------------------------------------------------- the deny dispatcher

  /** The value a `deny…` call stores: no argument or null denies, a boolean is stored
      negated, anything else is stored as is, to be called later. */
  function DenyValue(args: seq<PhpValue>): (g: Gate)
    ensures g == Fixed(false) <==> |args| == 0 || args[0] == Null || args[0] == Bool(true)
    ensures g == Fixed(true) <==> |args| > 0 && args[0] == Bool(false)
    ensures g.Denier? <==> |args| > 0 && !args[0].Null? && !args[0].Bool?
    ensures g.Denier? ==> g.deny == args[0]
  {
    if |args| == 0 || args[0].Null? then Fixed(false)
    else if args[0].Bool? then Fixed(!args[0].b)
    else Denier(args[0])
  }

  /** Asking a gate that a deny call just set: `denyX()` and `denyX(true)` deny,
      `denyX(false)` allows again, and `denyX($f)` allows exactly when `$f(...)` is
      falsy. */
  lemma DenyValueAllows(args: seq<PhpValue>, call: Caller, callArgs: seq<PhpValue>)
    ensures |args| == 0 || args[0] == Null ==> !Allows(DenyValue(args), call, callArgs)
    ensures forall b :: |args| > 0 && args[0] == Bool(b) ==> Allows(DenyValue(args), call, callArgs) == !b
    ensures |args| > 0 && !args[0].Null? && !args[0].Bool? ==>
      Allows(DenyValue(args), call, callArgs) == !Truthy(call(args[0], callArgs))
  {
  }

  /** The properties a `deny…` call can write, read by name: the three gates, the
      declared properties that hold a PHP value, and the dynamic properties. */
  function Property<Col, Flt>(d: Descriptor<Col, Flt>, name: string): Option<PhpValue> {
    if name == "creatable" then Some(GateValue(d.creatable))
    else if name == "editable" then Some(GateValue(d.editable))
    else if name == "deletable" then Some(GateValue(d.deletable))
    else if name == "alias" then Some(d.alias)
    else if name == "with" then Some(d.eagerLoad)
    else if name == "orderable" then Some(d.orderable)
    else if name == "title" then Some(d.title)
    else if name == "form" then Some(d.form)
    else if name in d.dynamic then Some(d.dynamic[name])
    else None
  }

  /** The model class and the column and filter lists are the same. */
  ghost predicate SameSettings<Col, Flt>(a: Descriptor<Col, Flt>, b: Descriptor<Col, Flt>) {
    a.modelClass == b.modelClass && a.columns == b.columns && a.filters == b.filters
  }

  /** `$this->$name = $value`: a gate takes the gate value, a declared property the
      PHP value, and any other name becomes a dynamic property. */
  function Assign<Col, Flt>(d: Descriptor<Col, Flt>, name: string, g: Gate): (r: Descriptor<Col, Flt>)
    ensures forall p :: Property(r, p) == if p == name then Some(GateValue(g)) else Property(d, p)
    ensures SameSettings(r, d)
  {
    var v := GateValue(g);
    if name == "creatable" then d.(creatable := g)
    else if name == "editable" then d.(editable := g)
    else if name == "deletable" then d.(deletable := g)
    else if name == "alias" then d.(alias := v)
    else if name == "with" then d.(eagerLoad := v)
    else if name == "orderable" then d.(orderable := v)
    else if name == "title" then d.(title := v)
    else if name == "form" then d.(form := v)
    else d.(dynamic := d.dynamic[name := v])
  }

  /** PHP refuses to write a property whose name starts with a NUL byte; the empty name
      is an ordinary dynamic property. */
  predicate ValidPropertyName(name: string) {
    name == "" || name[0] != '\0'
  }

  /** The `foreach` of `__call`: assigns `g` to each name in order, and stops with an
      error at the first name PHP refuses, keeping the assignments made before it. It
      returns exactly when every name is accepted, and it never touches the model
      class, the columns or the filters. */
  function AssignAll<Col, Flt>(d: Descriptor<Col, Flt>, names: seq<string>, g: Gate): (r: CallResult<Col, Flt>)
    ensures r.Returned? <==> forall i :: 0 <= i < |names| ==> ValidPropertyName(names[i])
    ensures r.Threw? ==> r.error.BadPropertyName? && r.error.property in names
                         && !ValidPropertyName(r.error.property)
    ensures SameSettings(r.d, d)
    decreases |names|
  {
    if names == [] then Returned(d)
    else if !ValidPropertyName(names[0]) then Threw(d, BadPropertyName(names[0]))
    else
      var rest := AssignAll(Assign(d, names[0], g), names[1..], g);
      assert forall i :: 1 <= i < |names| ==> names[i] == names[1..][i - 1];
      assert rest.Threw? ==> rest.error.property in names by {
        if rest.Threw? {
          assert rest.error.property in names[1..];
        }
      }
      rest
  }

  /** Continues with `AssignAll` if the previous step returned. */
  function AssignMore<Col, Flt>(r: CallResult<Col, Flt>, names: seq<string>, g: Gate): CallResult<Col, Flt> {
    if r.Returned? then AssignAll(r.d, names, g) else r
  }

  /** Assigning `n1 + n2` is assigning `n1`, then `n2` if nothing was refused. */
  lemma {:induction false} AssignAllConcat<Col, Flt>(d: Descriptor<Col, Flt>, n1: seq<string>,
                                                    n2: seq<string>, g: Gate)
    ensures AssignAll(d, n1 + n2, g) == AssignMore(AssignAll(d, n1, g), n2, g)
    decreases |n1|
  {
    if n1 != [] {
      assert (n1 + n2)[0] == n1[0];
      assert (n1 + n2)[1..] == n1[1..] + n2;
      if ValidPropertyName(n1[0]) {
        AssignAllConcat(Assign(d, n1[0], g), n1[1..], n2, g);
      }
    } else {
      assert n1 + n2 == n2;
    }
  }

  /** When every name is accepted, exactly the named properties hold `g` afterwards,
      every other property keeps its value, and the model class, columns and filters
      are unchanged. */
  lemma {:induction false} AssignAllValid<Col, Flt>(d: Descriptor<Col, Flt>, names: seq<string>, g: Gate)
    requires forall i :: 0 <= i < |names| ==> ValidPropertyName(names[i])
    ensures AssignAll(d, names, g).Returned?
    ensures forall p :: Property(AssignAll(d, names, g).d, p)
                        == if p in names then Some(GateValue(g)) else Property(d, p)
    ensures SameSettings(AssignAll(d, names, g).d, d)
    decreases |names|
  {
    if names != [] {
      var d' := Assign(d, names[0], g);
      AssignAllValid(d', names[1..], g);
      forall p ensures Property(AssignAll(d, names, g).d, p)
                       == if p in names then Some(GateValue(g)) else Property(d, p)
      {
        assert p in names <==> p == names[0] || p in names[1..] by {
          assert names == [names[0]] + names[1..];
        }
      }
    }
  }

  /** `__call($method, $param)`. `as` with an argument sets the alias and `as()` fails
      with the state untouched; any other name not matching the deny pattern fails with
      MethodNotFound, also untouched; a deny call either returns or fails at a name PHP
      refuses. */
  function Call<Col, Flt>(d: Descriptor<Col, Flt>, name: string, args: seq<PhpValue>): (r: CallResult<Col, Flt>)
    ensures name == "as" && |args| > 0 ==> r.Returned? && GetAlias(r.d) == args[0]
    ensures r.Threw? && r.error.TooFewArguments? <==> name == "as" && |args| == 0
    ensures r.Threw? && r.error.MethodNotFound? <==> name != "as" && MatchDeny(name).None?
    ensures r.Threw? && r.error.MethodNotFound? ==> r.error == MethodNotFound(ClassName, name)
    ensures r.Threw? && !r.error.BadPropertyName? ==> r.d == d
    ensures SameSettings(r.d, d)
  {
    if name == "as" then
      if |args| == 0 then Threw(d, TooFewArguments("setAlias"))
      else Returned(SetAlias(d, args[0]))
    else match MatchDeny(name)
      case Some(types) => AssignAll(d, Decode(types), DenyValue(args))
      case None => Threw(d, MethodNotFound(ClassName, name))
  }

  /** Makes a second call if the first one returned. */
  function Then<Col, Flt>(r: CallResult<Col, Flt>, name: string, args: seq<PhpValue>): CallResult<Col, Flt> {
    if r.Returned? then Call(r.d, name, args) else r
  }

  /** `as($v, …)` is `setAlias($v)`, after which `getAlias()` is `$v`; `as()` raises
      before changing anything. */
  lemma AsIsSetAlias<Col, Flt>(d: Descriptor<Col, Flt>, v: PhpValue, rest: seq<PhpValue>)
    ensures Call(d, "as", [v] + rest) == Returned(SetAlias(d, v))
    ensures GetAlias(Call(d, "as", [v] + rest).d) == v
    ensures Call(d, "as", []) == Threw(d, TooFewArguments("setAlias"))
  {
  }

  /** A name that is neither `as` nor `deny…` raises MethodNotFound with the class and
      the method name, and the descriptor is unchanged. */
  lemma UnknownMethodFails<Col, Flt>(d: Descriptor<Col, Flt>, name: string, args: seq<PhpValue>)
    requires name != "as"
    requires MatchDeny(name).None?
    ensures Call(d, name, args) == Threw(d, MethodNotFound(ClassName, name))
  {
  }

  /** `frobnicate()` is a configuration error naming the method. */
  lemma FrobnicateFails<Col, Flt>(d: Descriptor<Col, Flt>, args: seq<PhpValue>)
    ensures Call(d, "frobnicate", args) == Threw(d, MethodNotFound(ClassName, "frobnicate"))
  {
    assert "frobnicate"[..|Prefix|] != Prefix by {
      assert "frobnicate"[..|Prefix|][0] == 'f';
    }
    UnknownMethodFails(d, "frobnicate", args);
  }

  /** A `deny<types>` call whose decoded names PHP accepts returns; afterwards exactly
      the decoded names hold the deny value, every other property is as before, and the
      model class, columns and filters are unchanged. */
  lemma DenySetsExactlyDecodedNames<Col, Flt>(d: Descriptor<Col, Flt>, name: string, args: seq<PhpValue>)
    requires MatchDeny(name).Some?
    requires forall n :: n in Decode(MatchDeny(name).value) ==> ValidPropertyName(n)
    ensures Call(d, name, args).Returned?
    ensures forall p :: Property(Call(d, name, args).d, p)
                        == if p in Decode(MatchDeny(name).value) then Some(GateValue(DenyValue(args))) else Property(d, p)
    ensures SameSettings(Call(d, name, args).d, d)
  {
    assert name != "as";
    AssignAllValid(d, Decode(MatchDeny(name).value), DenyValue(args));
  }

  /** A `deny<types>` call one of whose decoded names PHP refuses raises at the first
      such name; the names before it have been assigned, the rest have not. */
  lemma DenyStopsAtBadName<Col, Flt>(d: Descriptor<Col, Flt>, name: string, args: seq<PhpValue>, k: nat)
    requires MatchDeny(name).Some?
    requires k < |Decode(MatchDeny(name).value)|
    requires !ValidPropertyName(Decode(MatchDeny(name).value)[k])
    requires forall i :: 0 <= i < k ==> ValidPropertyName(Decode(MatchDeny(name).value)[i])
    ensures var names := Decode(MatchDeny(name).value);
      Call(d, name, args) == Threw(AssignAll(d, names[..k], DenyValue(args)).d, BadPropertyName(names[k]))
  {
    assert name != "as";
    var names := Decode(MatchDeny(name).value);
    var g := DenyValue(args);
    AssignAllValid(d, names[..k], g);
    assert names == names[..k] + names[k..];
    AssignAllConcat(d, names[..k], names[k..], g);
  }

  /** `denyAnd` decodes to two empty names: the dynamic property `""` is written twice
      and the call returns. */
  lemma DenyAndWritesEmptyName<Col, Flt>(d: Descriptor<Col, Flt>, args: seq<PhpValue>)
    ensures Call(d, "denyAnd", args)
            == Returned(d.(dynamic := d.dynamic["" := GateValue(DenyValue(args))]))
  {
    VerbsSpelled();
    NoNewlineInVerbs();
    MatchDenyPrefixed("And");
    DecodeBareAnd();
    var g := DenyValue(args);
    var d1 := d.(dynamic := d.dynamic["" := GateValue(g)]);
    AssignEmptyName(d, g);
    AssignEmptyName(d1, g);
    assert d1.dynamic["" := GateValue(g)] == d1.dynamic;
    assert ["", ""][1..] == [""] && [""][1..] == [];
    assert AssignAll(d, ["", ""], g) == AssignAll(d1, [""], g);
  }

  /** The empty name is no declared property: writing it adds a dynamic property. */
  lemma AssignEmptyName<Col, Flt>(d: Descriptor<Col, Flt>, g: Gate)
    ensures Assign(d, "", g) == d.(dynamic := d.dynamic["" := GateValue(g)])
  {
  }

  /** `deny<A>And<B>(…)` is `deny<A>(…)` followed by `deny<B>(…)` with the same
      arguments, the second made only if the first returned. */
  lemma DenyAndIsSequential<Col, Flt>(d: Descriptor<Col, Flt>, a: string, b: string, args: seq<PhpValue>)
    requires |a| > 0 && NoNewline(a)
    requires |b| > 0 && NoNewline(b)
    ensures Call(d, Prefix + a + "And" + b, args) == Then(Call(d, Prefix + a, args), Prefix + b, args)
  {
    var types := a + "And" + b;
    assert NoNewline(types) by {
      forall i | 0 <= i < |types| ensures types[i] != '\n' {
        if i < |a| { assert types[i] == a[i]; }
        else if i < |a| + 3 { assert types[i] == "And"[i - |a|]; }
        else { assert types[i] == b[i - |a| - 3]; }
      }
    }
    assert (Prefix + a + "And" + b)[|Prefix|..] == types;
    assert (Prefix + a)[|Prefix|..] == a;
    assert (Prefix + b)[|Prefix|..] == b;
    assert MatchDeny(Prefix + a + "And" + b) == Some(types);
    assert MatchDeny(Prefix + a) == Some(a);
    assert MatchDeny(Prefix + b) == Some(b);
    DecodeAnd(a, b);
    AssignAllConcat(d, Decode(a), Decode(b), DenyValue(args));
  }

  /** A `deny<types>` call whose part decodes to one accepted name assigns just that
      name. */
  lemma DenySingleSets<Col, Flt>(d: Descriptor<Col, Flt>, types: string, property: string,
                                 args: seq<PhpValue>)
    requires |types| > 0 && NoNewline(types)
    requires Decode(types) == [property] && ValidPropertyName(property)
    ensures Call(d, Prefix + types, args) == Returned(Assign(d, property, DenyValue(args)))
  {
    MatchDenyPrefixed(types);
    assert Prefix + types != "as" by {
      assert |Prefix + types| > 2;
    }
    var g := DenyValue(args);
    assert [property][1..] == [];
    assert AssignAll(d, [property], g) == Returned(Assign(d, property, g));
  }

  /** `denyCreating(…)` sets `creatable` to the deny value and nothing else. */
  lemma DenyCreatingSets<Col, Flt>(d: Descriptor<Col, Flt>, args: seq<PhpValue>)
    ensures Call(d, "denyCreating", args) == Returned(d.(creatable := DenyValue(args)))
  {
    VerbsSpelled();
    NoNewlineInVerbs();
    DecodeCreating();
    DenySingleSets(d, "Creating", "creatable", args);
  }

  /** `denyEditing(…)` sets `editable` to the deny value and nothing else. */
  lemma DenyEditingSets<Col, Flt>(d: Descriptor<Col, Flt>, args: seq<PhpValue>)
    ensures Call(d, "denyEditing", args) == Returned(d.(editable := DenyValue(args)))
  {
    VerbsSpelled();
    NoNewlineInVerbs();
    DecodeEditing();
    DenySingleSets(d, "Editing", "editable", args);
  }

  /** `denyDeleting(…)` sets `deletable` to the deny value and nothing else. */
  lemma DenyDeletingSets<Col, Flt>(d: Descriptor<Col, Flt>, args: seq<PhpValue>)
    ensures Call(d, "denyDeleting", args) == Returned(d.(deletable := DenyValue(args)))
  {
    VerbsSpelled();
    NoNewlineInVerbs();
    DecodeDeleting();
    DenySingleSets(d, "Deleting", "deletable", args);
  }

  /** `denyEditingAndDeleting(…)` sets `editable` and `deletable` to the deny value and
      nothing else, and equals `denyEditing(…)` followed by `denyDeleting(…)`. */
  lemma DenyEditingAndDeletingSetsBoth<Col, Flt>(d: Descriptor<Col, Flt>, args: seq<PhpValue>)
    ensures Call(d, "denyEditingAndDeleting", args)
            == Then(Call(d, "denyEditing", args), "denyDeleting", args)
    ensures Call(d, "denyEditingAndDeleting", args)
            == Returned(d.(editable := DenyValue(args), deletable := DenyValue(args)))
  {
    DenyEditingAndDeletingSpelled();
    VerbsSpelled();
    NoNewlineInVerbs();
    DenyAndIsSequential(d, "Editing", "Deleting", args);
    DenyEditingSets(d, args);
    DenyDeletingSets(d.(editable := DenyValue(args)), args);
  }

  /** `denyOrdering(…)` overwrites the declared `orderable` flag with the deny value. */
  lemma DenyOrderingSetsOrderable<Col, Flt>(d: Descriptor<Col, Flt>, args: seq<PhpValue>)
    ensures Call(d, "denyOrdering", args) == Returned(d.(orderable := GateValue(DenyValue(args))))
  {
    VerbsSpelled();
    NoNewlineInVerbs();
    DecodeOrdering();
    DenySingleSets(d, "Ordering", "orderable", args);
    AssignDeclared(d, DenyValue(args));
  }

  /** `denyOrdering()` makes the entity unorderable, so the table is rendered with
      `data-ordering`. */
  lemma DenyOrderingDisablesOrdering<Col, Flt>(d: Descriptor<Col, Flt>)
    ensures Call(d, "denyOrdering", []).Returned?
    ensures IsOrderable(Call(d, "denyOrdering", []).d) == Bool(false)
    ensures TableAttributes(Call(d, "denyOrdering", []).d) == map["data-ordering" := "false"]
  {
    DenyOrderingSetsOrderable(d, []);
    var r := d.(orderable := Bool(false));
    assert GateValue(DenyValue([])) == Bool(false);
    assert TableAttributes(r) == map["data-ordering" := "false"];
  }

  /** `denyTitle($x)` overwrites the declared title with the deny value of `$x`. */
  lemma DenyTitleSetsTitle<Col, Flt>(d: Descriptor<Col, Flt>, args: seq<PhpValue>)
    ensures Call(d, "denyTitle", args) == Returned(d.(title := GateValue(DenyValue(args))))
  {
    VerbsSpelled();
    NoNewlineInVerbs();
    DecodeTitle();
    DenySingleSets(d, "Title", "title", args);
    AssignDeclared(d, DenyValue(args));
  }

  /** Writing a declared property overwrites that field with the PHP value. */
  lemma AssignDeclared<Col, Flt>(d: Descriptor<Col, Flt>, g: Gate)
    ensures Assign(d, "orderable", g) == d.(orderable := GateValue(g))
    ensures Assign(d, "title", g) == d.(title := GateValue(g))
  {
  }

  lemma DenyEditingAndDeletingSpelled()
    ensures Prefix + "Editing" + "And" + "Deleting" == "denyEditingAndDeleting"
  {
  }

  lemma VerbsSpelled()
    ensures Prefix + "Creating" == "denyCreating"
    ensures Prefix + "Editing" == "denyEditing"
    ensures Prefix + "Deleting" == "denyDeleting"
    ensures Prefix + "Ordering" == "denyOrdering"
    ensures Prefix + "Title" == "denyTitle"
    ensures Prefix + "And" == "denyAnd"
  {
  }

  lemma NoNewlineInVerbs()
    ensures NoNewline("Creating") && NoNewline("Editing") && NoNewline("Deleting")
    ensures NoNewline("Ordering") && NoNewline("Title") && NoNewline("And")
  {
  }

  /** `isCreatable()` after `denyCreating`: with no argument or `true` it is false, with
      `false` it is true again, and with a closure `$f` it is `!$f()`. */
  lemma DenyCreatingThenAsk<Col, Flt>(d: Descriptor<Col, Flt>, call: Caller, f: Callable)
    ensures IsCreatable(Call(d, "denyCreating", []).d, call) == false
    ensures IsCreatable(Call(d, "denyCreating", [Bool(true)]).d, call) == false
    ensures IsCreatable(Call(d, "denyCreating", [Bool(false)]).d, call) == true
    ensures IsCreatable(Call(d, "denyCreating", [f]).d, call) == !Truthy(call(f, []))
  {
    DenyCreatingSets(d, []);
    DenyCreatingSets(d, [Bool(true)]);
    DenyCreatingSets(d, [Bool(false)]);
    DenyCreatingSets(d, [f]);
  }
}
