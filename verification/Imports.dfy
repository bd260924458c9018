/**
 What a generated module imports, and which names that binds.  The reserved names are
 derived from the imports the renderer and the type mapper declare, so no import a module
 carries can be shadowed, whatever the schema and the configured mappings are.
 */
module Imports {
  import opened Options

  /** `import path`, or `from path import names`. */
  datatype Import = Import(path: string, names: seq<string>)

  function FirstPart(path: string): string {
    if path == "" || path[0] == '.' then "" else [path[0]] + FirstPart(path[1..])
  }

  /** The names an import binds in the module's namespace. */
  function BoundNames(i: Import): set<string> {
    if i.names == [] then {FirstPart(i.path)} else set n | n in i.names
  }

  function AllBound(imports: set<Import>): set<string> {
    set i, n | i in imports && n in BoundNames(i) :: n
  }

  /** A rendered Python expression, with the imports needed to evaluate it. */
  datatype Expression =
    | Name(value: string, dependencies: set<Import>)
    | Attribute(parent: Expression, name: string)
    | Subscript(parent: Expression, arguments: seq<Expression>)
    | StringLiteral(text: string)
    | Call(callee: Expression, arguments: seq<Expression>)
    | Union(members: seq<Expression>)

  function ImportsOf(e: Expression): set<Import>
    decreases e
  {
    match e
    case Name(_, dependencies) => dependencies
    case Attribute(parent, _) => ImportsOf(parent)
    case Subscript(parent, arguments) => ImportsOf(parent) + ImportsOfAll(arguments)
    case StringLiteral(_) => {}
    case Call(callee, arguments) => ImportsOf(callee) + ImportsOfAll(arguments)
    case Union(members) => ImportsOfAll(members)
  }

  function ImportsOfAll(es: seq<Expression>): set<Import>
    decreases es
  {
    if es == [] then {} else ImportsOf(es[0]) + ImportsOfAll(es[1..])
  }

  /** The bare names an expression resolves through the module's namespace. */
  function NamesOf(e: Expression): set<string>
    decreases e
  {
    match e
    case Name(value, _) => {value}
    case Attribute(parent, _) => NamesOf(parent)
    case Subscript(parent, arguments) => NamesOf(parent) + NamesOfAll(arguments)
    case StringLiteral(_) => {}
    case Call(callee, arguments) => NamesOf(callee) + NamesOfAll(arguments)
    case Union(members) => NamesOfAll(members)
  }

  function NamesOfAll(es: seq<Expression>): set<string>
    decreases es
  {
    if es == [] then {} else NamesOf(es[0]) + NamesOfAll(es[1..])
  }

  // ---- What can be imported --------------------------------------------------------------------

  const DECODER_KINDS: set<string> :=
    {"bool", "bytes", "date", "datetime", "decimal", "float", "inet", "int", "json", "str", "time", "uuid"}

  const RELQ_NAMES: set<string> :=
    (set kind | kind in DECODER_KINDS :: kind + "_decoder")
    + {"AwareDateTime", "AwareTime", "Inet", "Interval", "JsonValue", "NaiveDateTime", "NaiveTime",
       "aware_datetime_decoder", "aware_time_decoder", "domain_decoder", "enum_decoder", "interval_decoder",
       "list_decoder", "naive_datetime_decoder", "naive_time_decoder", "nullable", "row_adapter"}

  const STDLIB_MODULES: set<string> := {"datetime", "decimal", "uuid"}

  function FromRelq(name: string): Import {
    Import("relq", [name])
  }

  const MAPPING_IMPORTS: set<Import> :=
    (set n | n in RELQ_NAMES :: FromRelq(n)) + (set m | m in STDLIB_MODULES :: Import(m, []))

  const ENUM := Import("enum", [])
  const DATACLASS := Import("dataclasses", ["dataclass"])
  const ROW_ADAPTER := Import("relq", ["row_adapter"])
  const ITERABLE := Import("collections.abc", ["Iterable"])
  const BUILDERS := Import("relq", ["Column", "InsertQuery", "Table", "UpdateQuery", "column", "insert_into", "update"])
  const TYPING := Import("typing", ["Literal", "NewType", "NotRequired", "Required", "TypedDict"])

  /** Every import the renderer itself can emit; a module may carry part of the last one. */
  const MODULE_IMPORTS: set<Import> := {ITERABLE, DATACLASS, ENUM, ROW_ADAPTER, BUILDERS, TYPING}

  const TYPED := Import("typing", ["Literal", "NotRequired", "Required", "TypedDict"])
  const NEW_TYPE := Import("typing", ["NewType"])

  const BUILTIN_NAMES: set<string> := {"bool", "bytes", "float", "int", "list", "str", "tuple"}
  const RELATION_ATTRIBUTES: set<string> :=
    {"_alias", "_reference", "_schema", "_source", "_state", "as_", "column_names", "node", "output_names", "reference",
     "table_name"}

  const RESERVED_NAMES: set<string> := AllBound(MODULE_IMPORTS + MAPPING_IMPORTS) + BUILTIN_NAMES + RELATION_ATTRIBUTES

  // ---- Types and their policies -------------------------------------------------------------------

  datatype Identity = Identity(schema: Option<string>, name: string)

  datatype SqlType = Builtin(name: string) | Enumeration(identity: Identity) | Domain(identity: Identity) | Array(element: SqlType)

  datatype Mapping =
    | Direct(annotation: Expression, decoder: string)
    | Wrapper(name: string, annotation: Expression, decoder: string)
    | Rejected

  type Config = map<Identity, Mapping>

  /** What the type mapper knows about a built-in type: its Python type and its decoder. */
  datatype Policy =
    | Plain(name: string, decoder: string)
    | Branded(name: string, decoder: string)
    | Standard(path: string, name: string, decoder: string)

  datatype Resolved = Resolved(annotation: Expression, decoder: Option<Expression>)

  /** An import of relq's that is not declared is refused. */
  function RelqName(name: string): Option<Expression> {
    if name in RELQ_NAMES then Some(Name(name, {FromRelq(name)})) else None
  }

  function StandardName(path: string, name: string): Option<Expression> {
    if path in STDLIB_MODULES then Some(Attribute(Name(path, {Import(path, [])}), name)) else None
  }

  function Decoded(annotation: Option<Expression>, decoder: string): Option<Resolved> {
    if annotation.None? || RelqName(decoder).None? then None
    else Some(Resolved(annotation.value, Some(Call(RelqName(decoder).value, []))))
  }

  function ResolveMapping(mapping: Mapping): Option<Resolved> {
    match mapping
    case Direct(annotation, decoder) => Decoded(Some(annotation), decoder + "_decoder")
    case Wrapper(name, _, decoder) =>
      if RelqName(decoder + "_decoder").None? || RelqName("domain_decoder").None? then None
      else Some(Resolved(Name(name, {}),
                         Some(Call(RelqName("domain_decoder").value,
                                   [StringLiteral(name), Call(RelqName(decoder + "_decoder").value, []), Name(name, {})]))))
    case Rejected => None
  }

  function ResolvePolicy(policy: Policy): Option<Resolved> {
    match policy
    case Plain(name, decoder) => Decoded(if name in BUILTIN_NAMES then Some(Name(name, {})) else None, decoder)
    case Branded(name, decoder) => Decoded(RelqName(name), decoder)
    case Standard(path, name, decoder) => Decoded(StandardName(path, name), decoder)
  }

  /** A configured mapping comes before what is known about built-in types; `None` is an error. */
  function ResolveType(t: SqlType, enums: map<Identity, string>, config: Config,
                       builtins: string -> Option<Policy>): Option<Resolved>
    decreases t
  {
    match t
    case Array(element) =>
      (match ResolveType(element, enums, config, builtins)
       case None => None
       case Some(r) =>
         if r.decoder.None? then Some(Resolved(Subscript(Name("list", {}), [r.annotation]), None))
         else if RelqName("list_decoder").None? then None
         else Some(Resolved(Subscript(Name("list", {}), [r.annotation]),
                            Some(Call(RelqName("list_decoder").value, [r.decoder.value])))))
    case Enumeration(identity) =>
      if identity in enums && RelqName("enum_decoder").Some? then
        Some(Resolved(Name(enums[identity], {}), Some(Call(RelqName("enum_decoder").value, [Name(enums[identity], {})]))))
      else if identity in config then ResolveMapping(config[identity]) else None
    case Domain(identity) =>
      if identity in config then ResolveMapping(config[identity]) else None
    case Builtin(name) =>
      var identity := Identity(None, name);
      if identity in config then ResolveMapping(config[identity])
      else if builtins(name).None? then None else ResolvePolicy(builtins(name).value)
  }

  function MappingNames(mapping: Mapping): set<string> {
    if mapping.Rejected? then {} else NamesOf(mapping.annotation) + AllBound(ImportsOf(mapping.annotation))
  }

  /** The fixed names, and whatever the configured mappings bring into scope. */
  function ReservedFor(config: Config): set<string> {
    RESERVED_NAMES + set m, n | m in config.Values && n in MappingNames(m) :: n
  }

  // ---- A module --------------------------------------------------------------------------------------

  datatype Column = Column(sqlType: SqlType, nullable: bool)

  function UsedIdentity(t: SqlType): Identity {
    match t
    case Array(element) => UsedIdentity(element)
    case Enumeration(identity) => identity
    case Domain(identity) => identity
    case Builtin(name) => Identity(None, name)
  }

  /** The wrapper policies of the types the tables use. */
  function UsedWrappers(columns: seq<Column>, config: Config): set<Mapping> {
    set c | c in columns && UsedIdentity(c.sqlType) in config && config[UsedIdentity(c.sqlType)].Wrapper? ::
      config[UsedIdentity(c.sqlType)]
  }

  function RowDecoder(c: Column, r: Resolved): Option<Expression> {
    if r.decoder.None? || !c.nullable then r.decoder
    else if RelqName("nullable").None? then None
    else Some(Call(RelqName("nullable").value, [r.decoder.value]))
  }

  function ColumnExpressions(c: Column, r: Resolved): seq<Expression> {
    [r.annotation] + (if r.decoder.Some? then [r.decoder.value] else [])
    + (if RowDecoder(c, r).Some? then [RowDecoder(c, r).value] else [])
  }

  /** The expressions the columns are rendered with; `None` when a type cannot be resolved. */
  function Expressions(columns: seq<Column>, enums: map<Identity, string>, config: Config,
                       builtins: string -> Option<Policy>): Option<seq<Expression>>
  {
    if columns == [] then Some([])
    else
      match ResolveType(columns[0].sqlType, enums, config, builtins)
      case None => None
      case Some(r) =>
        match Expressions(columns[1..], enums, config, builtins)
        case None => None
        case Some(rest) => Some(ColumnExpressions(columns[0], r) + rest)
  }

  /** Every import the module carries, for the columns of all its tables. */
  function Carried(columns: seq<Column>, tables: nat, enums: map<Identity, string>, config: Config,
                   builtins: string -> Option<Policy>): Option<set<Import>>
  {
    var used := UsedWrappers(columns, config);
    match Expressions(columns, enums, config, builtins)
    case None => None
    case Some(expressions) =>
      Some({ITERABLE, TYPED, BUILDERS}
           + (if enums != map[] then {ENUM} else {})
           + (if used != {} then {NEW_TYPE} else {})
           + (set w, i | w in used && i in ImportsOf(w.annotation) :: i)
           + ImportsOfAll(expressions)
           + (if tables > 0 then {DATACLASS, ROW_ADAPTER} else {}))
  }

  // ---- Nothing else is imported or named --------------------------------------------------------------

  /** An import that is declared, or that a configured mapping brings along. */
  predicate Declared(i: Import, config: Config) {
    i in MAPPING_IMPORTS || exists m :: m in config.Values && !m.Rejected? && i in ImportsOf(m.annotation)
  }

  /** A name that is reserved, or that the plan declares for an enum or a wrapper. */
  predicate Known(n: string, columns: seq<Column>, enums: map<Identity, string>, config: Config) {
    n in ReservedFor(config) || n in enums.Values || exists w :: w in UsedWrappers(columns, config) && w.name == n
  }

  predicate Sound(e: Expression, columns: seq<Column>, enums: map<Identity, string>, config: Config) {
    && (forall i :: i in ImportsOf(e) ==> Declared(i, config))
    && (forall n :: n in NamesOf(e) ==> Known(n, columns, enums, config))
  }

  predicate SoundResolved(r: Resolved, columns: seq<Column>, enums: map<Identity, string>, config: Config) {
    Sound(r.annotation, columns, enums, config) && (r.decoder.Some? ==> Sound(r.decoder.value, columns, enums, config))
  }

  lemma DeclaredIsReserved(i: Import, config: Config)
    requires Declared(i, config) || i in MODULE_IMPORTS
    ensures BoundNames(i) <= ReservedFor(config)
  {
    if i in MAPPING_IMPORTS || i in MODULE_IMPORTS {
      assert i in MODULE_IMPORTS + MAPPING_IMPORTS;
    } else {
      var m :| m in config.Values && !m.Rejected? && i in ImportsOf(m.annotation);
      assert BoundNames(i) <= MappingNames(m);
    }
  }

  lemma RelqNameIsSound(name: string, columns: seq<Column>, enums: map<Identity, string>, config: Config)
    ensures RelqName(name).Some? ==> Sound(RelqName(name).value, columns, enums, config)
  {
    if name in RELQ_NAMES {
      assert FromRelq(name) in MAPPING_IMPORTS;
      DeclaredIsReserved(FromRelq(name), config);
      assert name in BoundNames(FromRelq(name));
    }
  }

  lemma CallIsSound(callee: Expression, arguments: seq<Expression>, columns: seq<Column>, enums: map<Identity, string>,
                    config: Config)
    requires Sound(callee, columns, enums, config) && forall a :: a in arguments ==> Sound(a, columns, enums, config)
    ensures Sound(Call(callee, arguments), columns, enums, config)
    ensures Sound(Subscript(callee, arguments), columns, enums, config)
  {
    hide Declared, Known;
    AllSound(arguments, columns, enums, config);
  }

  lemma {:induction false} AllSound(es: seq<Expression>, columns: seq<Column>, enums: map<Identity, string>, config: Config)
    requires forall e :: e in es ==> Sound(e, columns, enums, config)
    ensures forall i :: i in ImportsOfAll(es) ==> Declared(i, config)
    ensures forall n :: n in NamesOfAll(es) ==> Known(n, columns, enums, config)
    decreases |es|
  {
    hide Declared, Known;
    if es != [] {
      assert es[0] in es;
      AllSound(es[1..], columns, enums, config);
    }
  }

  lemma DecodedIsSound(annotation: Option<Expression>, decoder: string, columns: seq<Column>,
                       enums: map<Identity, string>, config: Config)
    requires annotation.Some? ==> Sound(annotation.value, columns, enums, config)
    ensures Decoded(annotation, decoder).Some? ==> SoundResolved(Decoded(annotation, decoder).value, columns, enums, config)
  {
    hide Sound, RelqName;
    RelqNameIsSound(decoder, columns, enums, config);
    if RelqName(decoder).Some? {
      CallIsSound(RelqName(decoder).value, [], columns, enums, config);
    }
  }

  lemma PolicyIsSound(policy: Policy, columns: seq<Column>, enums: map<Identity, string>, config: Config)
    ensures ResolvePolicy(policy).Some? ==> SoundResolved(ResolvePolicy(policy).value, columns, enums, config)
  {
    match policy
    case Plain(name, decoder) =>
      if name in BUILTIN_NAMES {
        assert Sound(Name(name, {}), columns, enums, config);
      }
      DecodedIsSound(if name in BUILTIN_NAMES then Some(Name(name, {})) else None, decoder, columns, enums, config);
    case Branded(name, decoder) =>
      RelqNameIsSound(name, columns, enums, config);
      DecodedIsSound(RelqName(name), decoder, columns, enums, config);
    case Standard(path, name, decoder) =>
      if path in STDLIB_MODULES {
        StandardIsSound(path, name, columns, enums, config);
      }
      DecodedIsSound(StandardName(path, name), decoder, columns, enums, config);
  }

  lemma {:induction false} UndottedPath(path: string)
    requires '.' !in path
    ensures FirstPart(path) == path
  {
    if path != "" {
      assert path[0] in path;
      UndottedPath(path[1..]);
    }
  }

  lemma StandardIsDeclared(path: string, config: Config)
    requires path in STDLIB_MODULES
    ensures Declared(Import(path, []), config) && BoundNames(Import(path, [])) == {path}
  {
    assert '.' !in "datetime" && '.' !in "decimal" && '.' !in "uuid";
    hide FirstPart;
    UndottedPath(path);
    assert Import(path, []) in MAPPING_IMPORTS;
  }

  lemma StandardIsSound(path: string, name: string, columns: seq<Column>, enums: map<Identity, string>, config: Config)
    requires path in STDLIB_MODULES
    ensures Sound(StandardName(path, name).value, columns, enums, config)
  {
    hide ReservedFor, Declared, BoundNames, UsedWrappers, FirstPart;
    StandardIsDeclared(path, config);
    DeclaredIsReserved(Import(path, []), config);
    assert path in ReservedFor(config) by {
      assert path in BoundNames(Import(path, []));
    }
    assert Known(path, columns, enums, config);
    hide Known;
    assert ImportsOf(StandardName(path, name).value) == {Import(path, [])};
    assert NamesOf(StandardName(path, name).value) == {path};
  }

  lemma MappingIsSound(identity: Identity, columns: seq<Column>, enums: map<Identity, string>, config: Config)
    requires identity in config && (config[identity].Wrapper? ==> config[identity] in UsedWrappers(columns, config))
    ensures ResolveMapping(config[identity]).Some? ==> SoundResolved(ResolveMapping(config[identity]).value, columns, enums, config)
  {
    var mapping := config[identity];
    assert mapping in config.Values;
    assert mapping.Wrapper? ==> Known(mapping.name, columns, enums, config);
    hide Sound, Known, UsedWrappers, RelqName;
    match mapping
    case Direct(annotation, decoder) =>
      AnnotationIsSound(mapping, columns, enums, config);
      DecodedIsSound(Some(annotation), decoder + "_decoder", columns, enums, config);
    case Wrapper(name, _, decoder) =>
      WrapperIsSound(name, decoder, columns, enums, config);
    case Rejected =>
  }

  lemma AnnotationIsSound(mapping: Mapping, columns: seq<Column>, enums: map<Identity, string>, config: Config)
    requires mapping in config.Values && !mapping.Rejected?
    ensures Sound(mapping.annotation, columns, enums, config)
  {
    assert NamesOf(mapping.annotation) <= MappingNames(mapping);
    assert MappingNames(mapping) <= ReservedFor(config);
  }

  lemma WrapperIsSound(name: string, decoder: string, columns: seq<Column>, enums: map<Identity, string>, config: Config)
    requires Known(name, columns, enums, config)
    ensures Sound(Name(name, {}), columns, enums, config)
    ensures RelqName(decoder + "_decoder").Some? && RelqName("domain_decoder").Some? ==>
      Sound(Call(RelqName("domain_decoder").value,
                 [StringLiteral(name), Call(RelqName(decoder + "_decoder").value, []), Name(name, {})]),
            columns, enums, config)
  {
    hide RelqName, Known;
    assert Sound(Name(name, {}), columns, enums, config) && Sound(StringLiteral(name), columns, enums, config);
    hide Sound;
    if RelqName(decoder + "_decoder").None? || RelqName("domain_decoder").None? {
      return;
    }
    RelqNameIsSound("domain_decoder", columns, enums, config);
    RelqNameIsSound(decoder + "_decoder", columns, enums, config);
    CallIsSound(RelqName(decoder + "_decoder").value, [], columns, enums, config);
    CallIsSound(RelqName("domain_decoder").value,
                [StringLiteral(name), Call(RelqName(decoder + "_decoder").value, []), Name(name, {})], columns, enums, config);
  }

  /** Whatever a type resolves to imports and names only what is declared. */
  lemma {:induction false} TypeIsSound(t: SqlType, columns: seq<Column>, enums: map<Identity, string>, config: Config,
                                       builtins: string -> Option<Policy>)
    requires UsedIdentity(t) in config && config[UsedIdentity(t)].Wrapper? ==>
               config[UsedIdentity(t)] in UsedWrappers(columns, config)
    ensures ResolveType(t, enums, config, builtins).Some? ==>
              SoundResolved(ResolveType(t, enums, config, builtins).value, columns, enums, config)
    decreases t
  {
    hide RelqName, Sound, UsedWrappers, ResolveMapping, ResolvePolicy;
    match t
    case Array(element) =>
      TypeIsSound(element, columns, enums, config, builtins);
      var r := ResolveType(element, enums, config, builtins);
      if r.Some? {
        ListIsSound(r.value, columns, enums, config);
      }
    case Enumeration(identity) =>
      if identity in enums && RelqName("enum_decoder").Some? {
        EnumIsSound(enums[identity], columns, enums, config);
      } else if identity in config {
        MappingIsSound(identity, columns, enums, config);
      }
    case Domain(identity) =>
      if identity in config {
        MappingIsSound(identity, columns, enums, config);
      }
    case Builtin(name) =>
      if Identity(None, name) in config {
        MappingIsSound(Identity(None, name), columns, enums, config);
      } else if builtins(name).Some? {
        PolicyIsSound(builtins(name).value, columns, enums, config);
      }
  }

  lemma ListIsSound(r: Resolved, columns: seq<Column>, enums: map<Identity, string>, config: Config)
    requires SoundResolved(r, columns, enums, config)
    ensures Sound(Subscript(Name("list", {}), [r.annotation]), columns, enums, config)
    ensures r.decoder.Some? && RelqName("list_decoder").Some? ==>
              Sound(Call(RelqName("list_decoder").value, [r.decoder.value]), columns, enums, config)
  {
    assert Sound(Name("list", {}), columns, enums, config);
    RelqNameIsSound("list_decoder", columns, enums, config);
    hide Sound, RelqName;
    CallIsSound(Name("list", {}), [r.annotation], columns, enums, config);
    if r.decoder.Some? && RelqName("list_decoder").Some? {
      CallIsSound(RelqName("list_decoder").value, [r.decoder.value], columns, enums, config);
    }
  }

  lemma EnumIsSound(name: string, columns: seq<Column>, enums: map<Identity, string>, config: Config)
    requires name in enums.Values && RelqName("enum_decoder").Some?
    ensures Sound(Name(name, {}), columns, enums, config)
    ensures Sound(Call(RelqName("enum_decoder").value, [Name(name, {})]), columns, enums, config)
  {
    assert Sound(Name(name, {}), columns, enums, config);
    RelqNameIsSound("enum_decoder", columns, enums, config);
    hide Sound, RelqName;
    CallIsSound(RelqName("enum_decoder").value, [Name(name, {})], columns, enums, config);
  }

  lemma ColumnIsSound(c: Column, columns: seq<Column>, enums: map<Identity, string>, config: Config,
                      builtins: string -> Option<Policy>)
    requires c in columns && ResolveType(c.sqlType, enums, config, builtins).Some?
    ensures forall e :: e in ColumnExpressions(c, ResolveType(c.sqlType, enums, config, builtins).value) ==>
              Sound(e, columns, enums, config)
  {
    hide Sound, RelqName, ResolveType;
    TypeIsSound(c.sqlType, columns, enums, config, builtins);
    var r := ResolveType(c.sqlType, enums, config, builtins).value;
    RelqNameIsSound("nullable", columns, enums, config);
    if r.decoder.Some? && RelqName("nullable").Some? {
      CallIsSound(RelqName("nullable").value, [r.decoder.value], columns, enums, config);
    }
  }

  lemma {:induction false} ColumnsAreSound(part: seq<Column>, columns: seq<Column>, enums: map<Identity, string>, config: Config,
                                           builtins: string -> Option<Policy>)
    requires forall c :: c in part ==> c in columns
    requires Expressions(part, enums, config, builtins).Some?
    ensures forall e :: e in Expressions(part, enums, config, builtins).value ==> Sound(e, columns, enums, config)
    decreases |part|
  {
    hide Sound, ResolveType, ColumnExpressions;
    if part != [] {
      ColumnIsSound(part[0], columns, enums, config, builtins);
      ColumnsAreSound(part[1..], columns, enums, config, builtins);
    }
  }

  /** Every name that the module's imports bind is reserved. */
  lemma ImportsAreReserved(columns: seq<Column>, tables: nat, enums: map<Identity, string>, config: Config,
                           builtins: string -> Option<Policy>)
    requires Carried(columns, tables, enums, config, builtins).Some?
    ensures AllBound(Carried(columns, tables, enums, config, builtins).value) <= ReservedFor(config)
  {
    var imports := Carried(columns, tables, enums, config, builtins).value;
    var expressions := Expressions(columns, enums, config, builtins).value;
    ColumnsAreSound(columns, columns, enums, config, builtins);
    AllSound(expressions, columns, enums, config);
    forall i | i in imports ensures BoundNames(i) <= ReservedFor(config) {
      if i == TYPED || i == NEW_TYPE {
        DeclaredIsReserved(TYPING, config);
        assert BoundNames(i) <= BoundNames(TYPING);
      } else if i in MODULE_IMPORTS || i in ImportsOfAll(expressions) {
        DeclaredIsReserved(i, config);
      } else {
        var w :| w in UsedWrappers(columns, config) && i in ImportsOf(w.annotation);
        assert w in config.Values;
        DeclaredIsReserved(i, config);
      }
    }
  }

  lemma WrapperIsReserved(w: Mapping, config: Config)
    requires w in config.Values && !w.Rejected?
    ensures NamesOf(w.annotation) <= ReservedFor(config)
  {
    assert NamesOf(w.annotation) <= MappingNames(w);
    assert MappingNames(w) <= ReservedFor(config);
  }

  /** So the module's own check, that no expression names anything unreserved, never fails. */
  lemma NamesAreKnown(columns: seq<Column>, enums: map<Identity, string>, config: Config, builtins: string -> Option<Policy>)
    requires Expressions(columns, enums, config, builtins).Some?
    ensures NamesOfAll(Expressions(columns, enums, config, builtins).value) <=
            ReservedFor(config) + enums.Values + set w | w in UsedWrappers(columns, config) :: w.name
    ensures forall w :: w in UsedWrappers(columns, config) ==> NamesOf(w.annotation) <= ReservedFor(config)
  {
    forall w | w in UsedWrappers(columns, config) ensures NamesOf(w.annotation) <= ReservedFor(config) {
      WrapperIsReserved(w, config);
    }
    ColumnsAreSound(columns, columns, enums, config, builtins);
    AllSound(Expressions(columns, enums, config, builtins).value, columns, enums, config);
    hide NamesOfAll, Expressions, ReservedFor, UsedWrappers;
  }
}
