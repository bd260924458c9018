/**
 Names for generated modules.  Allocation tries numbered forms of a stem until its whole
 family is free, which must happen because each attempt is blocked by a different taken
 name; the plan's names are then pairwise distinct and avoid every import.
 */
module Names {
  import opened Options
  import opened Sequences
  import Imports

  // ---- Numbered candidates ------------------------------------------------------------------

  function Digit(d: nat): char
    requires d < 10
  {
    ['0', '1', '2', '3', '4', '5', '6', '7', '8', '9'][d]
  }

  function Decimal(n: nat): (s: string)
    ensures s != ""
  {
    if n < 10 then [Digit(n)] else Decimal(n / 10) + [Digit(n % 10)]
  }

  function DigitValue(c: char): nat {
    if '0' <= c <= '9' then (c - '0') as nat else 0
  }

  function Value(s: string): nat {
    if s == "" then 0 else 10 * Value(s[..|s| - 1]) + DigitValue(s[|s| - 1])
  }

  lemma {:induction false} DecimalReadsBack(n: nat)
    ensures Value(Decimal(n)) == n
  {
    if n >= 10 {
      DecimalReadsBack(n / 10);
      assert Decimal(n)[..|Decimal(n)| - 1] == Decimal(n / 10);
    } else {
      assert Decimal(n)[..0] == "";
    }
  }

  lemma DecimalIsInjective(m: nat, n: nat)
    requires Decimal(m) == Decimal(n)
    ensures m == n
  {
    DecimalReadsBack(m);
    DecimalReadsBack(n);
  }

  /** `stem`, `stem_`, `stem_3`, `stem_4`, ... */
  function Candidate(stem: string, attempt: nat): string
    requires attempt >= 1
  {
    if attempt == 1 then stem else if attempt == 2 then stem + "_" else stem + "_" + Decimal(attempt)
  }

  lemma CandidatesDiffer(stem: string, i: nat, j: nat)
    requires 1 <= i && 1 <= j && Candidate(stem, i) == Candidate(stem, j)
    ensures i == j
  {
    if i >= 3 && j >= 3 {
      assert Candidate(stem, i)[|stem| + 1..] == Decimal(i) && Candidate(stem, j)[|stem| + 1..] == Decimal(j);
      DecimalIsInjective(i, j);
    }
  }

  // ---- Families ---------------------------------------------------------------------------------

  datatype Template = Template(prefix: string, suffix: string)

  function Format(t: Template, name: string): string {
    t.prefix + name + t.suffix
  }

  function Family(templates: seq<Template>, name: string): set<string> {
    set t | t in templates :: Format(t, name)
  }

  lemma FormatIsInjective(t: Template, a: string, b: string)
    requires Format(t, a) == Format(t, b)
    ensures a == b
  {
    var x := Format(t, a);
    assert |a| == |b|;
    assert x[|t.prefix|..|t.prefix| + |a|] == a;
    assert Format(t, b)[|t.prefix|..|t.prefix| + |b|] == b;
  }

  predicate Blocked(templates: seq<Template>, name: string, taken: set<string>) {
    exists t :: t in templates && Format(t, name) in taken
  }

  /** Every way a taken name could block a template. */
  function Obstacles(templates: seq<Template>, taken: set<string>): set<(Template, string)> {
    set t, name | t in templates && name in taken :: (t, name)
  }

  /** `name` is the first numbered form of the stem whose whole family is free. */
  ghost predicate FirstFree(name: string, stem: string, templates: seq<Template>, taken: set<string>) {
    exists attempt: nat :: attempt >= 1 && FreeAt(name, stem, templates, taken, attempt)
  }

  ghost predicate FreeAt(name: string, stem: string, templates: seq<Template>, taken: set<string>, attempt: nat)
    requires attempt >= 1
  {
    && name == Candidate(stem, attempt) && !Blocked(templates, name, taken)
    && forall j :: 1 <= j < attempt ==> Blocked(templates, Candidate(stem, j), taken)
  }

  function Taken(reserved: set<string>, names: seq<string>): set<string> {
    reserved + set n | n in names
  }

  /** Each name is picked from its own stem, around the ones before it. */
  ghost predicate Picked(names: seq<string>, stems: seq<string>, reserved: set<string>) {
    && |names| == |stems|
    && forall i :: 0 <= i < |names| ==> FirstFree(names[i], stems[i], [PLAIN], Taken(reserved, names[..i]))
  }

  lemma PickedGrows(names: seq<string>, name: string, stems: seq<string>, reserved: set<string>)
    requires |names| < |stems| && Picked(names, stems[..|names|], reserved)
    requires FirstFree(name, stems[|names|], [PLAIN], Taken(reserved, names))
    ensures Picked(names + [name], stems[..|names| + 1], reserved)
    ensures Taken(reserved, names + [name]) == Taken(reserved, names) + {name}
  {
    hide FirstFree;
    var all := names + [name];
    forall i | 0 <= i < |all| ensures FirstFree(all[i], stems[..|all|][i], [PLAIN], Taken(reserved, all[..i])) {
      assert all[..i] == names[..i];
      if i == |names| {
        assert names[..i] == names;
      } else {
        assert stems[..|names|][i] == stems[i];
      }
    }
  }

  /** The first numbered form of the stem whose whole family is free. */
  method Allocate(stem: string, templates: seq<Template>, taken: set<string>)
    returns (name: string, now: set<string>, ghost attempt: nat)
    ensures attempt >= 1 && name == Candidate(stem, attempt)
    ensures forall j :: 1 <= j < attempt ==> Blocked(templates, Candidate(stem, j), taken)
    ensures FirstFree(name, stem, templates, taken)
    ensures Family(templates, name) !! taken && now == taken + Family(templates, name)
  {
    var n: nat := 1;
    name := stem;
    ghost var left := Obstacles(templates, taken);
    while Blocked(templates, name, taken)
      invariant n >= 1 && name == Candidate(stem, n)
      invariant forall j :: 1 <= j < n ==> Blocked(templates, Candidate(stem, j), taken)
      invariant forall t, j :: t in templates && j >= n && Format(t, Candidate(stem, j)) in taken ==>
                  (t, Format(t, Candidate(stem, j))) in left
      decreases |left|
    {
      ghost var t :| t in templates && Format(t, name) in taken;
      Unhit(t, stem, n);
      left := left - {(t, Format(t, name))};
      n := n + 1;
      name := if n == 2 then stem + "_" else stem + "_" + Decimal(n);
    }
    attempt := n;
    assert FreeAt(name, stem, templates, taken, n);
    now := taken + Family(templates, name);
  }

  /** The obstacle met now is not one a later attempt meets. */
  lemma Unhit(t: Template, stem: string, n: nat)
    requires n >= 1
    ensures forall j :: j > n ==> Format(t, Candidate(stem, j)) != Format(t, Candidate(stem, n))
  {
    hide Candidate, Format;
    forall j | j > n ensures Format(t, Candidate(stem, j)) != Format(t, Candidate(stem, n)) {
      if Format(t, Candidate(stem, j)) == Format(t, Candidate(stem, n)) {
        FormatIsInjective(t, Candidate(stem, j), Candidate(stem, n));
        CandidatesDiffer(stem, j, n);
      }
    }
  }

  const PLAIN := Template("", "")
  const CLASS_TEMPLATES := [PLAIN, Template("", "Insert"), Template("", "Update"), Template("", "Row")]
  const INSTANCE_TEMPLATES :=
    [PLAIN, Template("insert_", ""), Template("insert_", "_many"), Template("update_", ""), Template("", "_row_adapter")]

  // ---- Tables -----------------------------------------------------------------------------------

  /** Every module-level name one table contributes. */
  datatype TableNames = TableNames(className: string, instance: string, columns: seq<string>)
  {
    function InsertPayload(): string {
      className + "Insert"
    }

    function UpdatePayload(): string {
      className + "Update"
    }

    function Row(): string {
      className + "Row"
    }

    function InsertFunction(): string {
      "insert_" + instance
    }

    function UpdateFunction(): string {
      "update_" + instance
    }

    function RowAdapter(): string {
      instance + "_row_adapter"
    }

    /** The class, then what `exported` lists. */
    function Exported(): seq<string> {
      [className, instance, InsertPayload(), UpdatePayload(), InsertFunction(), InsertFunction() + "_many",
       UpdateFunction(), Row(), RowAdapter()]
    }
  }

  lemma ClassNames(name: string)
    ensures Family(CLASS_TEMPLATES, name) == {name, name + "Insert", name + "Update", name + "Row"}
    ensures NoDuplicates([name, name + "Insert", name + "Update", name + "Row"])
  {
    assert Format(CLASS_TEMPLATES[0], name) == name;
    assert Format(CLASS_TEMPLATES[1], name) == name + "Insert";
    assert Format(CLASS_TEMPLATES[2], name) == name + "Update";
    assert Format(CLASS_TEMPLATES[3], name) == name + "Row";
    assert (name + "Insert")[|name|] == 'I' && (name + "Update")[|name|] == 'U';
  }

  lemma InstanceNames(name: string)
    ensures Family(INSTANCE_TEMPLATES, name) ==
            {name, "insert_" + name, "insert_" + name + "_many", "update_" + name, name + "_row_adapter"}
    ensures NoDuplicates([name, "insert_" + name, "insert_" + name + "_many", "update_" + name, name + "_row_adapter"])
  {
    assert Format(INSTANCE_TEMPLATES[0], name) == name;
    assert Format(INSTANCE_TEMPLATES[1], name) == "insert_" + name;
    assert Format(INSTANCE_TEMPLATES[2], name) == "insert_" + name + "_many";
    assert Format(INSTANCE_TEMPLATES[3], name) == "update_" + name;
    assert Format(INSTANCE_TEMPLATES[4], name) == name + "_row_adapter";
    hide Format, NoDuplicates;
    InstancesDiffer(name);
  }

  lemma InstancesDiffer(name: string)
    ensures NoDuplicates([name, "insert_" + name, "insert_" + name + "_many", "update_" + name, name + "_row_adapter"])
  {
    assert ("insert_" + name)[0] == 'i' && ("update_" + name)[0] == 'u';
    var many, adapter := "insert_" + name + "_many", name + "_row_adapter";
    assert |many| == |adapter| && many[|many| - 1] == 'y' && adapter[|adapter| - 1] == 'r';
  }

  /** A table's exports are its two families: nine different names. */
  lemma ExportsAreFamilies(t: TableNames)
    requires Family(CLASS_TEMPLATES, t.className) !! Family(INSTANCE_TEMPLATES, t.instance)
    ensures NoDuplicates(t.Exported())
    ensures forall name :: name in t.Exported() <==>
      name in Family(CLASS_TEMPLATES, t.className) || name in Family(INSTANCE_TEMPLATES, t.instance)
  {
    ClassNames(t.className);
    InstanceNames(t.instance);
    hide Family, Format;
    var c := [t.className, t.className + "Insert", t.className + "Update", t.className + "Row"];
    var i := [t.instance, "insert_" + t.instance, "insert_" + t.instance + "_many", "update_" + t.instance,
              t.instance + "_row_adapter"];
    assert c[0] != c[1] && c[0] != c[2] && c[0] != c[3] && c[1] != c[2] && c[1] != c[3] && c[2] != c[3];
    assert i[0] != i[1] && i[0] != i[2] && i[0] != i[3] && i[0] != i[4] && i[1] != i[2] && i[1] != i[3] && i[1] != i[4];
    assert i[2] != i[3] && i[2] != i[4] && i[3] != i[4];
  }

  // ---- The plan ------------------------------------------------------------------------------------

  /** What a schema asks for: normalized stems, and the wrapper names the caller chose. */
  datatype TableStem = TableStem(className: string, instance: string, columns: seq<string>)

  datatype Namespace = Namespace(enums: seq<string>, wrappers: seq<string>, tables: seq<TableNames>)

  function TableExports(tables: seq<TableNames>): seq<string> {
    if tables == [] then [] else TableExports(tables[..|tables| - 1]) + tables[|tables| - 1].Exported()
  }

  function Exports(n: Namespace): seq<string> {
    n.enums + n.wrappers + TableExports(n.tables)
  }

  /** Distinct names, all recorded as taken, none of them reserved. */
  ghost predicate Separate(names: seq<string>, reserved: set<string>, taken: set<string>) {
    NoDuplicates(names) && reserved <= taken && forall name :: name in names ==> name in taken && name !in reserved
  }

  lemma SeparateGrows(names: seq<string>, more: seq<string>, reserved: set<string>, taken: set<string>,
                      now: set<string>)
    requires Separate(names, reserved, taken) && NoDuplicates(more) && taken <= now
    requires forall name :: name in more ==> name !in taken && name in now
    ensures Separate(names + more, reserved, now)
  {
    var all := names + more;
    forall i, j | 0 <= i < j < |all| ensures all[i] != all[j] {
      if i < |names| {
        assert all[i] == names[i] && names[i] in taken;
        assert j >= |names| ==> all[j] == more[j - |names|] && all[j] in more;
      } else {
        assert all[i] == more[i - |names|] && all[j] == more[j - |names|];
      }
    }
  }

  /** Columns live in a class body: they avoid what it resolves, and each other. */
  method AllocateColumns(stems: seq<string>, protected: set<string>) returns (columns: seq<string>)
    ensures Picked(columns, stems, protected) && NoDuplicates(columns)
    ensures forall c :: c in columns ==> c !in protected
  {
    var taken := protected;
    columns := [];
    for i := 0 to |stems|
      invariant |columns| == i && Separate(columns, protected, taken)
      invariant Picked(columns, stems[..i], protected) && taken == Taken(protected, columns)
    {
      hide FirstFree;
      var name, now, _ := Allocate(stems[i], [PLAIN], taken);
      PlainFamily(name);
      PickedGrows(columns, name, stems, protected);
      SeparateGrows(columns, [name], protected, taken, now);
      columns, taken := columns + [name], now;
    }
    assert stems[..|stems|] == stems;
  }

  lemma PlainFamily(name: string)
    ensures Family([PLAIN], name) == {name}
  {
    assert Format(PLAIN, name) == name;
    assert PLAIN in [PLAIN];
  }

  method AllocateEnums(stems: seq<string>, reserved: set<string>) returns (enums: seq<string>, taken: set<string>)
    ensures Picked(enums, stems, reserved) && Separate(enums, reserved, taken) && taken == Taken(reserved, enums)
  {
    enums, taken := [], reserved;
    for i := 0 to |stems|
      invariant |enums| == i && Separate(enums, reserved, taken)
      invariant Picked(enums, stems[..i], reserved) && taken == Taken(reserved, enums)
    {
      hide FirstFree;
      var name, now, _ := Allocate(stems[i], [PLAIN], taken);
      PlainFamily(name);
      PickedGrows(enums, name, stems, reserved);
      SeparateGrows(enums, [name], reserved, taken, now);
      enums, taken := enums + [name], now;
    }
    assert stems[..|stems|] == stems;
  }

  /** The names of one table: each from its own stem, around everything named before. */
  ghost predicate TablePicked(table: TableNames, stem: TableStem, taken: set<string>, protected: set<string>) {
    && FirstFree(table.className, stem.className, CLASS_TEMPLATES, taken)
    && FirstFree(table.instance, stem.instance, INSTANCE_TEMPLATES, taken + Family(CLASS_TEMPLATES, table.className))
    && Picked(table.columns, stem.columns, protected)
  }

  /** What the plan is to do: every name but a wrapper's comes from its own stem. */
  ghost predicate Planned(n: Namespace, enumStems: seq<string>, stems: seq<TableStem>, reserved: set<string>) {
    && Picked(n.enums, enumStems, reserved)
    && |n.tables| == |stems|
    && forall i :: 0 <= i < |stems| ==>
         TablePicked(n.tables[i], stems[i], Taken(reserved, Exports(n.(tables := n.tables[..i]))),
                     reserved + (set e | e in n.enums) + (set w | w in n.wrappers))
  }

  /** A wrapper's name is already reserved, or an enum's, or another wrapper's. */
  ghost predicate Clashes(wrappers: seq<string>, enums: seq<string>, reserved: set<string>) {
    exists i :: 0 <= i < |wrappers| && wrappers[i] in Taken(reserved, enums + wrappers[..i])
  }

  /**
   Every generated name, against one reserved set.  The only failure is a wrapper name the
   caller chose and something else already has.
   */
  method Plan(enumStems: seq<string>, wrappers: seq<string>, stems: seq<TableStem>, reserved: set<string>)
    returns (plan: Option<Namespace>, ghost enums: seq<string>)
    ensures Picked(enums, enumStems, reserved) && (plan.None? <==> Clashes(wrappers, enums, reserved))
    ensures plan.Some? ==> plan.value.enums == enums && plan.value.wrappers == wrappers
    ensures plan.Some? ==> Planned(plan.value, enumStems, stems, reserved)
    ensures plan.Some? ==> NoDuplicates(Exports(plan.value)) && forall name :: name in Exports(plan.value) ==>
      name !in reserved
    ensures plan.Some? ==> forall t :: t in plan.value.tables ==> NoDuplicates(t.columns)
    ensures plan.Some? ==> forall t, c :: t in plan.value.tables && c in t.columns ==>
              c !in reserved && c !in plan.value.enums && c !in wrappers
  {
    hide FirstFree, Picked, TablePicked, Planned, NoDuplicates, TableNames.Exported, Exports, Separate;
    var chosen, taken := AllocateEnums(enumStems, reserved);
    enums := chosen;
    assert chosen + wrappers[..0] == chosen;
    var names := chosen;
    for i := 0 to |wrappers|
      invariant i <= |wrappers| && names == chosen + wrappers[..i] && Separate(names, reserved, taken)
      invariant taken == Taken(reserved, names)
      invariant forall j :: 0 <= j < i ==> wrappers[j] !in Taken(reserved, enums + wrappers[..j])
    {
      if wrappers[i] in taken {
        return None, enums;
      }
      OneMore(names, wrappers[i], reserved, taken);
      assert wrappers[..i + 1] == wrappers[..i] + [wrappers[i]];
      assert chosen + wrappers[..i + 1] == (chosen + wrappers[..i]) + [wrappers[i]];
      TakenGrows(reserved, names, [wrappers[i]]);
      names, taken := names + [wrappers[i]], taken + {wrappers[i]};
    }
    assert wrappers[..|wrappers|] == wrappers;
    var tables := PlanTables(chosen, wrappers, stems, reserved, taken);
    PlanIsSound(Namespace(chosen, wrappers, tables), enumStems, stems, reserved);
    return Some(Namespace(chosen, wrappers, tables)), enums;
  }

  lemma OneMore(names: seq<string>, name: string, reserved: set<string>, taken: set<string>)
    requires Separate(names, reserved, taken) && name !in taken
    ensures Separate(names + [name], reserved, taken + {name})
  {
    SeparateGrows(names, [name], reserved, taken, taken + {name});
  }

  lemma PlanIsSound(n: Namespace, enumStems: seq<string>, stems: seq<TableStem>, reserved: set<string>)
    requires Picked(n.enums, enumStems, reserved) && |n.tables| == |stems|
    requires Separate(Exports(n), reserved, Taken(reserved, Exports(n)))
    requires forall i :: 0 <= i < |stems| ==>
      TablePicked(n.tables[i], stems[i], Taken(reserved, Exports(n.(tables := n.tables[..i]))),
                  reserved + (set e | e in n.enums) + (set w | w in n.wrappers))
    ensures Planned(n, enumStems, stems, reserved) && NoDuplicates(Exports(n))
    ensures forall name :: name in Exports(n) ==> name !in reserved
  {
    hide Picked, TablePicked, NoDuplicates, Exports;
  }

  lemma TakenGrows(reserved: set<string>, names: seq<string>, more: seq<string>)
    ensures Taken(reserved, names + more) == Taken(reserved, names) + set n | n in more
  {
  }

  /** The tables, one after the other. */
  method PlanTables(enums: seq<string>, wrappers: seq<string>, stems: seq<TableStem>, reserved: set<string>, named: set<string>)
    returns (tables: seq<TableNames>)
    requires Separate(enums + wrappers, reserved, named) && named == Taken(reserved, enums + wrappers)
    ensures var n := Namespace(enums, wrappers, tables);
      && Separate(Exports(n), reserved, Taken(reserved, Exports(n)))
      && |tables| == |stems|
      && (forall i :: 0 <= i < |stems| ==>
            TablePicked(tables[i], stems[i], Taken(reserved, Exports(n.(tables := tables[..i]))),
                        reserved + (set e | e in enums) + (set w | w in wrappers)))
    ensures forall t :: t in tables ==> NoDuplicates(t.columns)
    ensures forall t, c :: t in tables && c in t.columns ==> c !in reserved && c !in enums && c !in wrappers
  {
    hide FirstFree, Picked;
    var protected := reserved + (set e | e in enums) + (set w | w in wrappers);
    var taken := named;
    tables := [];
    ghost var first := enums + wrappers;
    assert first + TableExports([]) == first;
    for i := 0 to |stems|
      invariant |tables| == i && Separate(first + TableExports(tables), reserved, taken)
      invariant taken == Taken(reserved, first + TableExports(tables))
      invariant forall j :: 0 <= j < i ==>
        TablePicked(tables[j], stems[j], Taken(reserved, first + TableExports(tables[..j])), protected)
      invariant forall t :: t in tables ==> NoDuplicates(t.columns)
      invariant forall t, c :: t in tables && c in t.columns ==> c !in protected
    {
      var className, taken1, _ := Allocate(stems[i].className, CLASS_TEMPLATES, taken);
      var instance, taken2, _ := Allocate(stems[i].instance, INSTANCE_TEMPLATES, taken1);
      var columns := AllocateColumns(stems[i].columns, protected);
      var table := TableNames(className, instance, columns);
      assert TablePicked(table, stems[i], taken, protected);
      ExportsAreFamilies(table);
      TablesGrow(first, tables, table, reserved, taken, taken2);
      ghost var before := tables;
      taken, tables := taken2, tables + [table];
      assert forall j :: 0 <= j <= i ==> tables[..j] == before[..j];
      assert before[..i] == before;
      hide TablePicked, Family, TableNames.Exported;
    }
    assert forall j :: 0 <= j < |stems| ==> Exports(Namespace(enums, wrappers, tables[..j])) == first + TableExports(tables[..j]);
    assert forall name :: name in enums || name in wrappers ==> name in protected;
  }

  /** One more table's names are all new. */
  lemma TablesGrow(first: seq<string>, tables: seq<TableNames>, table: TableNames, reserved: set<string>, taken: set<string>,
                   now: set<string>)
    requires Separate(first + TableExports(tables), reserved, taken) && taken == Taken(reserved, first + TableExports(tables))
    requires NoDuplicates(table.Exported())
    requires forall name :: name in table.Exported() ==> name !in taken && name in now
    requires now == taken + set name | name in table.Exported()
    ensures Separate(first + TableExports(tables + [table]), reserved, now)
    ensures now == Taken(reserved, first + TableExports(tables + [table]))
  {
    hide TableNames.Exported, Separate, NoDuplicates;
    var names := first + TableExports(tables);
    SeparateGrows(names, table.Exported(), reserved, taken, now);
    TakenGrows(reserved, names, table.Exported());
    ExportsGrow(first, tables, table);
  }

  lemma ExportsGrow(first: seq<string>, tables: seq<TableNames>, table: TableNames)
    ensures first + TableExports(tables + [table]) == (first + TableExports(tables)) + table.Exported()
  {
    hide TableNames.Exported;
    assert (tables + [table])[..|tables|] == tables;
  }

  // ---- The module -----------------------------------------------------------------------------------

  datatype Outcome =
    | Module(names: Namespace, exported: seq<string>, imports: set<Imports.Import>)
    | Rejected // a type nothing maps, or a wrapper name that is taken
    | UnreservedName
    | ReboundImport

  function EnumNames(identities: seq<Imports.Identity>, names: seq<string>): map<Imports.Identity, string>
    requires |identities| == |names|
  {
    if identities == [] then map[] else EnumNames(identities[1..], names[1..])[identities[0] := names[0]]
  }

  lemma {:induction false} EnumNamesAreNames(identities: seq<Imports.Identity>, names: seq<string>, n: string)
    requires |identities| == |names| && n in EnumNames(identities, names).Values
    ensures n in names
    decreases |names|
  {
    if n != names[0] {
      var i :| i in EnumNames(identities, names) && EnumNames(identities, names)[i] == n;
      assert EnumNames(identities[1..], names[1..])[i] == n;
      EnumNamesAreNames(identities[1..], names[1..], n);
    }
  }

  function WrapperNames(columns: seq<Imports.Column>, config: Imports.Config): set<string> {
    set w | w in Imports.UsedWrappers(columns, config) :: w.name
  }

  lemma PlannedEnums(n: Namespace, enumStems: seq<string>, stems: seq<TableStem>, reserved: set<string>)
    requires Planned(n, enumStems, stems, reserved)
    ensures |n.enums| == |enumStems|
  {
  }

  /**
   A module is planned, rendered and checked as the generator does it, and neither check can
   fail: no expression names anything unreserved, and no export rebinds an import.
   */
  method RenderModule(identities: seq<Imports.Identity>, enumStems: seq<string>, wrappers: seq<string>,
                      stems: seq<TableStem>, columns: seq<Imports.Column>, config: Imports.Config,
                      builtins: string -> Option<Imports.Policy>)
    returns (outcome: Outcome)
    requires |identities| == |enumStems| && (set w | w in wrappers) == WrapperNames(columns, config)
    ensures outcome.Module? || outcome.Rejected?
    ensures outcome.Module? ==> outcome.exported == Exports(outcome.names) && outcome.names.wrappers == wrappers
    ensures outcome.Module? ==> Planned(outcome.names, enumStems, stems, Imports.ReservedFor(config))
    ensures outcome.Module? ==> NoDuplicates(outcome.exported)
    ensures outcome.Module? ==> forall name :: name in outcome.exported ==> name !in Imports.AllBound(outcome.imports)
  {
    var reserved := Imports.ReservedFor(config);
    hide Planned;
    var plan, _ := Plan(enumStems, wrappers, stems, reserved);
    if plan.None? {
      return Rejected;
    }
    PlannedEnums(plan.value, enumStems, stems, reserved);
    var enums := EnumNames(identities, plan.value.enums);
    var expressions := Imports.Expressions(columns, enums, config, builtins);
    var imports := Imports.Carried(columns, |stems|, enums, config, builtins);
    if expressions.None? || imports.None? {
      return Rejected;
    }
    forall n | n in enums.Values ensures n in plan.value.enums {
      EnumNamesAreNames(identities, plan.value.enums, n);
    }
    Imports.NamesAreKnown(columns, enums, config, builtins);
    Imports.ImportsAreReserved(columns, |stems|, enums, config, builtins);
    hide Imports.ReservedFor, Imports.UsedWrappers, Imports.Expressions, Imports.Carried, Imports.NamesOfAll;
    hide Imports.AllBound;
    var known := reserved + (set e | e in plan.value.enums) + set w | w in wrappers;
    if !(Imports.NamesOfAll(expressions.value) <= known)
       || exists w :: w in Imports.UsedWrappers(columns, config) && !(Imports.NamesOf(w.annotation) <= known) {
      return UnreservedName;
    }
    var exported := Exports(plan.value);
    if exists name :: name in exported && name in Imports.AllBound(imports.value) {
      return ReboundImport;
    }
    return Module(plan.value, exported, imports.value);
  }

  // ---- Enum members -------------------------------------------------------------------------------

  /** `base`, `base_2`, `base_3`, ... */
  function Member(base: string, attempt: nat): string
    requires attempt >= 1
  {
    if attempt == 1 then base else base + "_" + Decimal(attempt)
  }

  lemma MembersDiffer(base: string, i: nat, j: nat)
    requires 1 <= i && 1 <= j && Member(base, i) == Member(base, j)
    ensures i == j
  {
    if i >= 2 && j >= 2 {
      assert Member(base, i)[|base| + 1..] == Decimal(i) && Member(base, j)[|base| + 1..] == Decimal(j);
      DecimalIsInjective(i, j);
    }
  }

  method AllocateMember(base: string, used: set<string>) returns (name: string, ghost attempt: nat)
    ensures attempt >= 1 && name == Member(base, attempt) && name !in used
    ensures forall j :: 1 <= j < attempt ==> Member(base, j) in used
  {
    MemberForms(base);
    hide Member, Decimal;
    name := base;
    var suffix: nat := 2;
    ghost var left := used;
    while name in used
      invariant suffix >= 2 && name == Member(base, suffix - 1)
      invariant forall j :: 1 <= j < suffix - 1 ==> Member(base, j) in used
      invariant forall j :: j >= suffix - 1 && Member(base, j) in used ==> Member(base, j) in left
      decreases |left|
    {
      MemberUnhit(base, suffix - 1);
      left := left - {name};
      name := base + "_" + Decimal(suffix);
      suffix := suffix + 1;
    }
    attempt := suffix - 1;
  }

  lemma MemberForms(base: string)
    ensures Member(base, 1) == base
    ensures forall n :: n >= 2 ==> Member(base, n) == base + "_" + Decimal(n)
  {
  }

  lemma MemberUnhit(base: string, n: nat)
    requires n >= 1
    ensures forall j :: j > n ==> Member(base, j) != Member(base, n)
  {
    hide Member;
    forall j | j > n ensures Member(base, j) != Member(base, n) {
      if Member(base, j) == Member(base, n) {
        MembersDiffer(base, j, n);
      }
    }
  }

  /** `name` is the first numbered form of the base that no earlier member has. */
  ghost predicate FirstMember(name: string, base: string, used: set<string>) {
    exists attempt: nat :: attempt >= 1 && MemberAt(name, base, used, attempt)
  }

  ghost predicate MemberAt(name: string, base: string, used: set<string>, attempt: nat)
    requires attempt >= 1
  {
    name == Member(base, attempt) && name !in used && forall j :: 1 <= j < attempt ==> Member(base, j) in used
  }

  /** Each member comes from its own label, and all are distinct, whatever the labels normalize to. */
  method AllocateMembers(bases: seq<string>) returns (members: seq<string>)
    ensures |members| == |bases| && NoDuplicates(members)
    ensures forall i :: 0 <= i < |bases| ==> FirstMember(members[i], bases[i], Taken({}, members[..i]))
  {
    members := [];
    var used: set<string> := {};
    for i := 0 to |bases|
      invariant |members| == i && Separate(members, {}, used) && used == Taken({}, members)
      invariant forall j :: 0 <= j < i ==> FirstMember(members[j], bases[j], Taken({}, members[..j]))
    {
      ghost var before := members;
      var name, attempt := AllocateMember(bases[i], used);
      assert MemberAt(name, bases[i], used, attempt);
      hide FirstMember, MemberAt;
      SeparateGrows(members, [name], {}, used, used + {name});
      TakenGrows({}, members, [name]);
      members, used := members + [name], used + {name};
      assert forall j :: 0 <= j < i ==> members[..j] == before[..j];
      assert members[..i] == before;
    }
  }
}
