/**
 A reader for rendered SQL, expressions and whole statements.  It looks only at the text, so
 whatever it returns is what the text says.
 */
module Reader {
  import opened Options
  import opened Ast
  import opened Document
  import opened Nullability

  /** Text to be read, from the front. */
  datatype List = Nil | Cons(head: Item, tail: List)

  /** A document's text in front of `tail`. */
  function Flow(doc: Doc, tail: List): List {
    match doc
    case Empty | Raise(_) => tail
    case Raw(token) => Cons(Plain(token), tail)
    case Bind(value) => Cons(Valued(value), tail)
    case Paren(inner) => Cons(Opens, Flow(inner, Cons(Closes, tail)))
    case Seq(first, second) => Flow(first, Flow(second, tail))
    case Swapped(first, second) => Flow(first, Flow(second, tail))
  }

  function Items(list: List): seq<Item> {
    match list
    case Nil => []
    case Cons(head, tail) => [head] + Items(tail)
  }

  /** What is read is what the statement means. */
  lemma {:induction false} FlowIsMeaning(doc: Doc, tail: List)
    ensures Items(Flow(doc, tail)) == Meaning(doc) + Items(tail)
  {
    match doc
    case Empty | Raise(_) | Raw(_) | Bind(_) =>
    case Paren(inner) =>
      FlowIsMeaning(inner, Cons(Closes, tail));
      assert [Opens] + (Meaning(inner) + ([Closes] + Items(tail))) ==
        ([Opens] + Meaning(inner) + [Closes]) + Items(tail);
    case Seq(first, second) =>
      FlowIsMeaning(first, Flow(second, tail));
      FlowIsMeaning(second, tail);
    case Swapped(first, second) =>
      FlowIsMeaning(first, Flow(second, tail));
      FlowIsMeaning(second, tail);
  }

  /** What an expression says, with nothing the text does not show. */
  datatype Surface =
    | Named(source: string, name: string)
    | Proposed(name: string)
    | Placeholder(value: Value)
    | Interval(value: Value)
    | Single(word: string)
    | Constant(token: Token)
    | Within(operand: Surface, operator: string, low: Surface, high: Surface)
    | Infixed(left: Surface, operator: string, right: Surface)
    | Postfixed(operand: Surface, operator: string)
    | Negated(operand: Surface)
    | Pair(first: Surface, second: Surface)
    | Member(operand: Surface, operator: string, values: seq<Surface>)
    | MemberOf(operand: Surface, operator: string, query: QuerySaid)
    | Nested(query: QuerySaid)
    | Existing(word: string, query: QuerySaid)
    | Cases(branches: seq<(Surface, Surface)>, otherwise: Surface)
    | Called(name: string, arguments: seq<Surface>)
    | Components(components: seq<(string, Surface)>)
    | Extracted(field: string, operand: Surface)
    | Truncated(unit: string, operand: Surface, zone: Option<Surface>)
    | Cast(operand: Surface)
    | Filtered(call: Surface, condition: Surface)
    | Over(call: Surface, partition: seq<Surface>, order: seq<Ordering>, frame: Option<Framing>)

  datatype Ordering = Ordering(expression: Surface, direction: string, nulls: Option<string>)

  datatype Framing = Framing(frame: Frame, exclusion: Option<string>)

  /** A selected expression, with the name it is given. */
  datatype Selected = Selected(expression: Surface, alias: Option<string>)

  /** A relation: a CTE reads like an unqualified table. */
  datatype SourceSaid = Relation(table: Table) | Subselect(query: QuerySaid, correlation: string)

  /** A cross join has no predicate. */
  datatype JoinSaid = JoinSaid(kind: string, source: SourceSaid, on: Option<Surface>)

  datatype CteSaid = CteSaid(name: string, materialized: bool, query: QuerySaid)

  datatype CompoundSaid = CompoundSaid(operator: string, query: QuerySaid)

  datatype LockSaid = LockSaid(strength: string, tables: seq<string>, waiting: Option<string>)

  datatype Projection = Projection(distinct: bool, selections: seq<Selected>, base: SourceSaid, joins: seq<JoinSaid>)

  datatype Conditions = Conditions(condition: Option<Surface>, groupBy: seq<Surface>, having: Option<Surface>)

  datatype Finish = Finish(orderBy: seq<Ordering>, limit: Option<int>, offset: Option<int>, locks: seq<LockSaid>)

  datatype BodySaid = RowsSaid(rows: seq<seq<Surface>>) | QueryBody(query: QuerySaid) | NoValues

  datatype ConflictSaid = ConflictSaid(columns: seq<string>, target: Option<Surface>, action: ActionSaid)

  datatype ActionSaid = DoNothing | DoUpdate(assignments: seq<(string, Surface)>, condition: Option<Surface>)

  /** A statement; of its CTEs the text only shows whether any may be recursive. */
  datatype QuerySaid =
    | SelectSaid(recursive: bool, ctes: seq<CteSaid>, projection: Projection, conditions: Conditions, finish: Finish,
                 compounds: seq<CompoundSaid>)
    | InsertSaid(table: Table, columns: seq<string>, body: BodySaid, conflict: Option<ConflictSaid>,
                 returning: seq<Selected>)
    | UpdateSaid(table: Table, assignments: seq<(string, Surface)>, condition: Option<Surface>, returning: seq<Selected>)
    | DeleteSaid(table: Table, condition: Option<Surface>, returning: seq<Selected>)

  const BETWEEN: set<string> := {"between", "not between"}
  const MEMBERSHIP: set<string> := {"in", "not in"}
  const QUERY_WORDS: set<string> := {"select", "with", "with recursive"}
  const SINGLE_WORDS: set<string> := {"*", "current_date", "current_time", "localtime", "localtimestamp", "null", "true", "false"}
  const SPECIAL_WORDS: set<string> := {"excluded", "case", "exists", "not exists", "extract", "date_trunc",
                                       "make_interval", "cast", "-", "order by", "distinct", "from"}
  const COMPOUND_WORDS: set<string> := {"union", "union all", "intersect", "except"}
  const WAITING_WORDS: set<string> := {"nowait", "skip locked"}

  predicate IsWord(list: List, word: string) {
    list.Cons? && list.head == Plain(Word(word))
  }

  predicate StartsQuery(list: List) {
    list.Cons? && list.head.Plain? && list.head.token.Word? && list.head.token.text in QUERY_WORDS
  }

  /** Past one expected item. */
  function Past(list: List, item: Item): (r: Option<List>)
    ensures r.Some? ==> r.value < list
  {
    if list.Cons? && list.head == item then Some(list.tail) else None
  }

  /** The text up to the parenthesis that closes `depth` levels, and what follows it. */
  function Balanced(list: List, depth: nat): (r: Option<(List, List)>)
    ensures r.Some? ==> r.value.1 < list
  {
    match list
    case Nil => None
    case Cons(head, tail) =>
      if head.Closes? && depth == 0 then Some((Nil, tail))
      else
        var inner := if head.Opens? then depth + 1 else if head.Closes? then depth - 1 else depth;
        match Balanced(tail, inner)
        case None => None
        case Some((text, rest)) => Some((Cons(head, text), rest))
  }

  function Expression(list: List): (r: Option<(Surface, List)>)
    ensures r.Some? ==> r.value.1 < list
    decreases list, 3
  {
    match list
    case Nil => None
    case Cons(Valued(value), tail) =>
      if IsWord(tail, "::interval") then Some((Interval(value), tail.tail)) else Some((Placeholder(value), tail))
    case Cons(Opens, tail) => Enclosed(tail)
    case Cons(Closes, _) => None
    case Cons(Plain(token), tail) =>
      match token
      case Identifier(source) =>
        if IsWord(tail, ".") && tail.tail.Cons? && tail.tail.head.Plain? && tail.tail.head.token.Identifier?
        then Some((Named(source, tail.tail.head.token.name), tail.tail.tail)) else None
      case Word(word) => Worded(word, tail)
      case Number(_) | EscapeString(_) => Some((Constant(token), tail))
      case _ => None
  }

  /** Behind an opening parenthesis. */
  function Enclosed(list: List): (r: Option<(Surface, List)>)
    ensures r.Some? ==> r.value.1 < list
    decreases list, 4
  {
    if IsWord(list, "-") then
      match Expression(list.tail)
      case None => None
      case Some((operand, rest)) => Ending(Negated(operand), rest)
    else if StartsQuery(list) then
      match Query(list)
      case None => None
      case Some((query, rest)) => Ending(Nested(query), rest)
    else
      match Expression(list)
      case None => None
      case Some((operand, rest)) => Operated(operand, rest)
  }

  /** A surface whose closing parenthesis must follow. */
  function Ending(surface: Surface, list: List): (r: Option<(Surface, List)>)
    ensures r.Some? ==> r.value.1 < list
  {
    match Past(list, Closes)
    case None => None
    case Some(rest) => Some((surface, rest))
  }

  /** Behind the first operand inside parentheses. */
  function Operated(operand: Surface, list: List): (r: Option<(Surface, List)>)
    ensures r.Some? ==> r.value.1 < list
    decreases list, 4
  {
    match list
    case Cons(Plain(Comma), tail) =>
      (match Expression(tail)
       case None => None
       case Some((second, rest)) => Ending(Pair(operand, second), rest))
    case Cons(Plain(Operator(operator)), tail) =>
      if tail.Cons? && tail.head.Closes? then Some((Postfixed(operand, operator), tail.tail))
      else if operator in BETWEEN then Ranged(operand, operator, tail)
      else if operator in MEMBERSHIP then Listed(operand, operator, tail)
      else
        (match Expression(tail)
         case None => None
         case Some((right, rest)) => Ending(Infixed(operand, operator, right), rest))
    case _ => None
  }

  function Ranged(operand: Surface, operator: string, list: List): (r: Option<(Surface, List)>)
    ensures r.Some? ==> r.value.1 < list
    decreases list, 4
  {
    match Expression(list)
    case None => None
    case Some((low, rest)) =>
      if !IsWord(rest, "and") then None
      else
        match Expression(rest.tail)
        case None => None
        case Some((high, last)) => Ending(Within(operand, operator, low, high), last)
  }

  function Listed(operand: Surface, operator: string, list: List): (r: Option<(Surface, List)>)
    ensures r.Some? ==> r.value.1 < list
    decreases list, 4
  {
    match Past(list, Opens)
    case None => None
    case Some(tail) =>
      if StartsQuery(tail) then
        match Query(tail)
        case None => None
        case Some((query, rest)) =>
          match Past(rest, Closes)
          case None => None
          case Some(last) => Ending(MemberOf(operand, operator, query), last)
      else
        match Arguments(tail)
        case None => None
        case Some((values, rest)) => Ending(Member(operand, operator, values), rest)
  }

  /** Expressions separated by commas, up to and including a closing parenthesis. */
  function Arguments(list: List): (r: Option<(seq<Surface>, List)>)
    ensures r.Some? ==> r.value.1 < list
    decreases list, 5
  {
    match Past(list, Closes)
    case Some(rest) => Some(([], rest))
    case None => Several(list)
  }

  function Several(list: List): (r: Option<(seq<Surface>, List)>)
    ensures r.Some? ==> r.value.1 < list
    decreases list, 4
  {
    match Expression(list)
    case None => None
    case Some((first, rest)) =>
      match rest
      case Cons(Closes, tail) => Some(([first], tail))
      case Cons(Plain(Comma), tail) =>
        (match Several(tail)
         case None => None
         case Some((more, last)) => Some(([first] + more, last)))
      case _ => None
  }

  /** Behind a word. */
  function Worded(word: string, list: List): (r: Option<(Surface, List)>)
    ensures r.Some? ==> r.value.1 == list || r.value.1 < list
    decreases list, 5
  {
    if word in SINGLE_WORDS then Some((Single(word), list))
    else if word == "excluded" then
      (if IsWord(list, ".") && list.tail.Cons? && list.tail.head.Plain? && list.tail.head.token.Identifier?
       then Some((Proposed(list.tail.head.token.name), list.tail.tail)) else None)
    else if word == "case" then CaseOf(list)
    else
      match Past(list, Opens)
      case None => None
      case Some(tail) =>
        if word == "exists" || word == "not exists" then
          (match Query(tail)
           case None => None
           case Some((query, rest)) => Ending(Existing(word, query), rest))
        else if word == "extract" then ExtractOf(tail)
        else if word == "date_trunc" then TruncOf(tail)
        else if word == "make_interval" then
          (match ComponentsOf(tail)
           case None => None
           case Some((components, rest)) => Some((Components(components), rest)))
        else if word == "cast" then CastOf(tail)
        else
          match Arguments(tail)
          case None => None
          case Some((arguments, rest)) => Suffixed(Called(word, arguments), rest)
  }

  function CaseOf(list: List): (r: Option<(Surface, List)>)
    ensures r.Some? ==> r.value.1 < list
    decreases list, 4
  {
    match BranchesOf(list)
    case None => None
    case Some((branches, rest)) =>
      if !IsWord(rest, "else") then None
      else
        match Expression(rest.tail)
        case None => None
        case Some((otherwise, last)) =>
          if IsWord(last, "end") then Some((Cases(branches, otherwise), last.tail)) else None
  }

  function BranchesOf(list: List): (r: Option<(seq<(Surface, Surface)>, List)>)
    ensures r.Some? ==> r.value.1 == list || r.value.1 < list
    decreases list, 3
  {
    if !IsWord(list, "when") then Some(([], list))
    else
      match Expression(list.tail)
      case None => None
      case Some((condition, rest)) =>
        if !IsWord(rest, "then") then None
        else
          match Expression(rest.tail)
          case None => None
          case Some((value, last)) =>
            match BranchesOf(last)
            case None => None
            case Some((more, final)) => Some(([(condition, value)] + more, final))
  }

  function ExtractOf(list: List): (r: Option<(Surface, List)>)
    ensures r.Some? ==> r.value.1 < list
    decreases list, 4
  {
    if list.Cons? && list.head.Plain? && list.head.token.Literal? && IsWord(list.tail, "from") then
      match Expression(list.tail.tail)
      case None => None
      case Some((operand, rest)) => Ending(Extracted(list.head.token.text, operand), rest)
    else None
  }

  function TruncOf(list: List): (r: Option<(Surface, List)>)
    ensures r.Some? ==> r.value.1 < list
    decreases list, 4
  {
    if list.Cons? && list.head.Plain? && list.head.token.Literal? && list.tail.Cons? && list.tail.head ==
      Plain(Comma) then
      match Expression(list.tail.tail)
      case None => None
      case Some((operand, rest)) =>
        match rest
        case Cons(Plain(Comma), tail) =>
          (match Expression(tail)
           case None => None
           case Some((zone, last)) => Ending(Truncated(list.head.token.text, operand, Some(zone)), last))
        case _ => Ending(Truncated(list.head.token.text, operand, None), rest)
    else None
  }

  function ComponentsOf(list: List): (r: Option<(seq<(string, Surface)>, List)>)
    ensures r.Some? ==> r.value.1 < list
    decreases list, 5
  {
    match Past(list, Closes)
    case Some(rest) => Some(([], rest))
    case None => SeveralComponents(list)
  }

  function SeveralComponents(list: List): (r: Option<(seq<(string, Surface)>, List)>)
    ensures r.Some? ==> r.value.1 < list
    decreases list, 4
  {
    if list.Cons? && list.head.Plain? && list.head.token.Word? && IsWord(list.tail, "=>") then
      var name := list.head.token.text;
      match Expression(list.tail.tail)
      case None => None
      case Some((value, rest)) =>
        match rest
        case Cons(Closes, tail) => Some(([(name, value)], tail))
        case Cons(Plain(Comma), tail) =>
          (match SeveralComponents(tail)
           case None => None
           case Some((more, last)) => Some(([(name, value)] + more, last)))
        case _ => None
    else None
  }

  function CastOf(list: List): (r: Option<(Surface, List)>)
    ensures r.Some? ==> r.value.1 < list
    decreases list, 4
  {
    match Expression(list)
    case None => None
    case Some((operand, rest)) =>
      if IsWord(rest, "as") && IsWord(rest.tail, "uuid") then Ending(Cast(operand), rest.tail.tail) else None
  }

  /** FILTER and OVER behind a call. */
  function Suffixed(call: Surface, list: List): (r: Option<(Surface, List)>)
    ensures r.Some? ==> r.value.1 == list || r.value.1 < list
    decreases list, 5
  {
    if !IsWord(list, "filter") then Windowed(call, list)
    else
      match Past(list.tail, Opens)
      case None => None
      case Some(tail) =>
        if !IsWord(tail, "where") then None
        else
          match Expression(tail.tail)
          case None => None
          case Some((condition, rest)) =>
            match Past(rest, Closes)
            case None => None
            case Some(last) => Windowed(Filtered(call, condition), last)
  }

  function Windowed(call: Surface, list: List): (r: Option<(Surface, List)>)
    ensures r.Some? ==> r.value.1 == list || r.value.1 < list
    decreases list, 4
  {
    if !IsWord(list, "over") then Some((call, list))
    else
      match Past(list.tail, Opens)
      case None => None
      case Some(tail) =>
        match PartitionOf(tail)
        case None => None
        case Some((partition, rest)) =>
          match OrderOf(rest)
          case None => None
          case Some((order, last)) =>
            match FrameOf(last)
            case None => None
            case Some((frame, final)) => Ending(Over(call, partition, order, frame), final)
  }

  function PartitionOf(list: List): (r: Option<(seq<Surface>, List)>)
    ensures r.Some? ==> r.value.1 == list || r.value.1 < list
    decreases list, 3
  {
    if IsWord(list, "partition by") then Commas(list.tail) else Some(([], list))
  }

  /** One or more expressions separated by commas. */
  function Commas(list: List): (r: Option<(seq<Surface>, List)>)
    ensures r.Some? ==> r.value.1 < list
    decreases list, 4
  {
    match Expression(list)
    case None => None
    case Some((first, rest)) =>
      match rest
      case Cons(Plain(Comma), tail) =>
        (match Commas(tail)
         case None => None
         case Some((more, last)) => Some(([first] + more, last)))
      case _ => Some(([first], rest))
  }

  function OrderOf(list: List): (r: Option<(seq<Ordering>, List)>)
    ensures r.Some? ==> r.value.1 == list || r.value.1 < list
    decreases list, 3
  {
    if IsWord(list, "order by") then Orders(list.tail) else Some(([], list))
  }

  function OneOrder(list: List): (r: Option<(Ordering, List)>)
    ensures r.Some? ==> r.value.1 < list
    decreases list, 4
  {
    match Expression(list)
    case None => None
    case Some((expression, rest)) =>
      if rest.Cons? && rest.head.Plain? && rest.head.token.Word? then
        var direction, tail := rest.head.token.text, rest.tail;
        if IsWord(tail, "nulls") && tail.tail.Cons? && tail.tail.head.Plain? && tail.tail.head.token.Word?
        then Some((Ordering(expression, direction, Some(tail.tail.head.token.text)), tail.tail.tail))
        else Some((Ordering(expression, direction, None), tail))
      else None
  }

  function Orders(list: List): (r: Option<(seq<Ordering>, List)>)
    ensures r.Some? ==> r.value.1 < list
    decreases list, 5
  {
    match OneOrder(list)
    case None => None
    case Some((first, rest)) =>
      match rest
      case Cons(Plain(Comma), tail) =>
        (match Orders(tail)
         case None => None
         case Some((more, last)) => Some(([first] + more, last)))
      case _ => Some(([first], rest))
  }

  // ---- Frames, names, tables ---------------------------------------------------------------------

  predicate IsAnyWord(list: List) {
    list.Cons? && list.head.Plain? && list.head.token.Word?
  }

  predicate IsIdentifier(list: List) {
    list.Cons? && list.head.Plain? && list.head.token.Identifier?
  }

  predicate IsNumber(list: List) {
    list.Cons? && list.head.Plain? && list.head.token.Number?
  }

  function BoundaryOf(list: List): (r: Option<(FrameBoundary, List)>)
    ensures r.Some? ==> r.value.1 < list
  {
    if IsNumber(list) && IsAnyWord(list.tail) then
      Some((FrameBoundary(list.tail.head.token.text, Some(list.head.token.number)), list.tail.tail))
    else if IsAnyWord(list) then Some((FrameBoundary(list.head.token.text, None), list.tail))
    else None
  }

  /** A frame, unless the window ends here. */
  function FrameOf(list: List): (r: Option<(Option<Framing>, List)>)
    ensures r.Some? ==> r.value.1 == list || r.value.1 < list
  {
    if !IsAnyWord(list) then Some((None, list))
    else if !IsWord(list.tail, "between") then None
    else
      match BoundaryOf(list.tail.tail)
      case None => None
      case Some((start, rest)) =>
        if !IsWord(rest, "and") then None
        else
          match BoundaryOf(rest.tail)
          case None => None
          case Some((end, last)) =>
            var frame := Frame(list.head.token.text, start, end);
            if IsWord(last, "exclude") && IsAnyWord(last.tail)
            then Some((Some(Framing(frame, Some(last.tail.head.token.text))), last.tail.tail))
            else Some((Some(Framing(frame, None)), last))
  }

  /** One or more quoted names. */
  function NamesOf(list: List): (r: Option<(seq<string>, List)>)
    ensures r.Some? ==> r.value.1 < list
    decreases list
  {
    if !IsIdentifier(list) then None
    else
      match list.tail
      case Cons(Plain(Comma), tail) =>
        (match NamesOf(tail)
         case None => None
         case Some((more, rest)) => Some(([list.head.token.name] + more, rest)))
      case _ => Some(([list.head.token.name], list.tail))
  }

  /** Quoted names, up to and including a closing parenthesis. */
  function ColumnsOf(list: List): (r: Option<(seq<string>, List)>)
    ensures r.Some? ==> r.value.1 < list
  {
    match Past(list, Closes)
    case Some(rest) => Some(([], rest))
    case None =>
      match NamesOf(list)
      case None => None
      case Some((names, rest)) =>
        match Past(rest, Closes)
        case None => None
        case Some(last) => Some((names, last))
  }

  function AliasOf(list: List): (r: (Option<string>, List))
    ensures r.1 == list || r.1 < list
  {
    if IsWord(list, "as") && IsIdentifier(list.tail) then (Some(list.tail.head.token.name), list.tail.tail) else (None, list)
  }

  function TableOf(list: List): (r: Option<(Table, List)>)
    ensures r.Some? ==> r.value.1 < list
  {
    if !IsIdentifier(list) then None
    else
      var first := list.head.token.name;
      if IsWord(list.tail, ".") && IsIdentifier(list.tail.tail) then
        var (alias, rest) := AliasOf(list.tail.tail.tail);
        Some((Table(list.tail.tail.head.token.name, alias, Some(first)), rest))
      else
        var (alias, rest) := AliasOf(list.tail);
        Some((Table(first, alias, None), rest))
  }

  function CountOf(word: string, list: List): (r: Option<(Option<int>, List)>)
    ensures r.Some? ==> r.value.1 == list || r.value.1 < list
  {
    if !IsWord(list, word) then Some((None, list))
    else if IsNumber(list.tail) then Some((Some(list.tail.head.token.number), list.tail.tail)) else None
  }

  function WaitingOf(list: List): (r: (Option<string>, List))
    ensures r.1 == list || r.1 < list
  {
    if IsAnyWord(list) && list.head.token.text in WAITING_WORDS then (Some(list.head.token.text), list.tail) else (None, list)
  }

  function LocksOf(list: List): (r: Option<(seq<LockSaid>, List)>)
    ensures r.Some? ==> r.value.1 == list || r.value.1 < list
    decreases list
  {
    if !IsWord(list, "for") then Some(([], list))
    else if !IsAnyWord(list.tail) then None
    else
      match if IsWord(list.tail.tail, "of") then NamesOf(list.tail.tail.tail) else Some(([], list.tail.tail))
      case None => None
      case Some((tables, rest)) =>
        var (waiting, last) := WaitingOf(rest);
        match LocksOf(last)
        case None => None
        case Some((more, final)) => Some(([LockSaid(list.tail.head.token.text, tables, waiting)] + more, final))
  }

  // ---- SELECT -----------------------------------------------------------------------------------------

  function Query(list: List): (r: Option<(QuerySaid, List)>)
    ensures r.Some? ==> r.value.1 < list
    decreases list, 2
  {
    match Arm(list)
    case None => None
    case Some((first, rest)) =>
      match CompoundsOf(rest)
      case None => None
      case Some((compounds, last)) => Some((first.(compounds := compounds), last))
  }

  /** A SELECT without compound arms of its own. */
  function Arm(list: List): (r: Option<(QuerySaid, List)>)
    ensures r.Some? ==> r.value.1 < list && r.value.0.SelectSaid? && r.value.0.compounds == []
    decreases list, 1
  {
    match WithOf(list)
    case None => None
    case Some((recursive, ctes, rest)) =>
      match ProjectionOf(rest)
      case None => None
      case Some((projection, last)) =>
        match ConditionsOf(last)
        case None => None
        case Some((conditions, later)) =>
          match FinishOf(later)
          case None => None
          case Some((finish, final)) => Some((SelectSaid(recursive, ctes, projection, conditions, finish, []), final))
  }

  function CompoundsOf(list: List): (r: Option<(seq<CompoundSaid>, List)>)
    ensures r.Some? ==> r.value.1 == list || r.value.1 < list
    decreases list, 2
  {
    if !(IsAnyWord(list) && list.head.token.text in COMPOUND_WORDS) then Some(([], list))
    else
      match Arm(list.tail)
      case None => None
      case Some((query, rest)) =>
        match CompoundsOf(rest)
        case None => None
        case Some((more, last)) => Some(([CompoundSaid(list.head.token.text, query)] + more, last))
  }

  function WithOf(list: List): (r: Option<(bool, seq<CteSaid>, List)>)
    ensures r.Some? ==> r.value.2 == list || r.value.2 < list
    decreases list, 0
  {
    if IsWord(list, "with") || IsWord(list, "with recursive") then
      match CtesOf(list.tail)
      case None => None
      case Some((ctes, rest)) => Some((IsWord(list, "with recursive"), ctes, rest))
    else Some((false, [], list))
  }

  function CtesOf(list: List): (r: Option<(seq<CteSaid>, List)>)
    ensures r.Some? ==> r.value.1 < list
    decreases list, 5
  {
    match CteOf(list)
    case None => None
    case Some((first, rest)) =>
      match rest
      case Cons(Plain(Comma), tail) =>
        (match CtesOf(tail)
         case None => None
         case Some((more, last)) => Some(([first] + more, last)))
      case _ => Some(([first], rest))
  }

  function CteOf(list: List): (r: Option<(CteSaid, List)>)
    ensures r.Some? ==> r.value.1 < list
    decreases list, 4
  {
    if !(IsIdentifier(list) && IsWord(list.tail, "as")) then None
    else
      var materialized := IsWord(list.tail.tail, "materialized");
      match Past(if materialized then list.tail.tail.tail else list.tail.tail, Opens)
      case None => None
      case Some(tail) =>
        match Statement(tail)
        case None => None
        case Some((query, rest)) =>
          match Past(rest, Closes)
          case None => None
          case Some(last) => Some((CteSaid(list.head.token.name, materialized, query), last))
  }

  function ProjectionOf(list: List): (r: Option<(Projection, List)>)
    ensures r.Some? ==> r.value.1 < list
    decreases list, 0
  {
    if !IsWord(list, "select") then None
    else
      var distinct := IsWord(list.tail, "distinct");
      match SelectionsOf(if distinct then list.tail.tail else list.tail)
      case None => None
      case Some((selections, rest)) =>
        if !IsWord(rest, "from") then None
        else
          match SourceOf(rest.tail)
          case None => None
          case Some((base, last)) =>
            match JoinsOf(last)
            case None => None
            case Some((joins, final)) => Some((Projection(distinct, selections, base, joins), final))
  }

  /** What is selected, up to FROM. */
  function SelectionsOf(list: List): (r: Option<(seq<Selected>, List)>)
    ensures r.Some? ==> r.value.1 == list || r.value.1 < list
    decreases list, 6
  {
    if IsWord(list, "from") then Some(([], list)) else SelectedAll(list)
  }

  function SelectedAll(list: List): (r: Option<(seq<Selected>, List)>)
    ensures r.Some? ==> r.value.1 < list
    decreases list, 5
  {
    match Expression(list)
    case None => None
    case Some((expression, rest)) =>
      var (alias, last) := AliasOf(rest);
      match last
      case Cons(Plain(Comma), tail) =>
        (match SelectedAll(tail)
         case None => None
         case Some((more, final)) => Some(([Selected(expression, alias)] + more, final)))
      case _ => Some(([Selected(expression, alias)], last))
  }

  function SourceOf(list: List): (r: Option<(SourceSaid, List)>)
    ensures r.Some? ==> r.value.1 < list
    decreases list, 3
  {
    match Past(list, Opens)
    case None =>
      (match TableOf(list)
       case None => None
       case Some((table, rest)) => Some((Relation(table), rest)))
    case Some(tail) =>
      match Query(tail)
      case None => None
      case Some((query, rest)) =>
        match Past(rest, Closes)
        case None => None
        case Some(last) =>
          if IsWord(last, "as") && IsIdentifier(last.tail)
          then Some((Subselect(query, last.tail.head.token.name), last.tail.tail)) else None
  }

  function JoinsOf(list: List): (r: Option<(seq<JoinSaid>, List)>)
    ensures r.Some? ==> r.value.1 == list || r.value.1 < list
    decreases list, 4
  {
    if !(IsAnyWord(list) && list.head.token.text in JOIN_KINDS && IsWord(list.tail, "join")) then Some(([], list))
    else
      match SourceOf(list.tail.tail)
      case None => None
      case Some((source, rest)) =>
        match OnOf(list.head.token.text, rest)
        case None => None
        case Some((on, last)) =>
          match JoinsOf(last)
          case None => None
          case Some((more, final)) => Some(([JoinSaid(list.head.token.text, source, on)] + more, final))
  }

  function OnOf(kind: string, list: List): (r: Option<(Option<Surface>, List)>)
    ensures r.Some? ==> r.value.1 == list || r.value.1 < list
    decreases list, 3
  {
    if kind == "cross" then Some((None, list))
    else if !IsWord(list, "on") then None
    else
      match Expression(list.tail)
      case None => None
      case Some((condition, rest)) => Some((Some(condition), rest))
  }

  function ClauseOf(word: string, list: List): (r: Option<(Option<Surface>, List)>)
    ensures r.Some? ==> r.value.1 == list || r.value.1 < list
    decreases list, 4
  {
    if !IsWord(list, word) then Some((None, list))
    else
      match Expression(list.tail)
      case None => None
      case Some((condition, rest)) => Some((Some(condition), rest))
  }

  function GroupsOf(list: List): (r: Option<(seq<Surface>, List)>)
    ensures r.Some? ==> r.value.1 == list || r.value.1 < list
    decreases list, 4
  {
    if IsWord(list, "group by") then Commas(list.tail) else Some(([], list))
  }

  function ConditionsOf(list: List): (r: Option<(Conditions, List)>)
    ensures r.Some? ==> r.value.1 == list || r.value.1 < list
    decreases list, 5
  {
    match ClauseOf("where", list)
    case None => None
    case Some((condition, rest)) =>
      match GroupsOf(rest)
      case None => None
      case Some((groups, last)) =>
        match ClauseOf("having", last)
        case None => None
        case Some((having, final)) => Some((Conditions(condition, groups, having), final))
  }

  function FinishOf(list: List): (r: Option<(Finish, List)>)
    ensures r.Some? ==> r.value.1 == list || r.value.1 < list
    decreases list, 5
  {
    match OrderOf(list)
    case None => None
    case Some((orders, rest)) =>
      match CountOf("limit", rest)
      case None => None
      case Some((limit, last)) =>
        match CountOf("offset", last)
        case None => None
        case Some((offset, later)) =>
          match LocksOf(later)
          case None => None
          case Some((locks, final)) => Some((Finish(orders, limit, offset, locks), final))
  }

  // ---- Statements ---------------------------------------------------------------------------------------

  function Statement(list: List): (r: Option<(QuerySaid, List)>)
    ensures r.Some? ==> r.value.1 < list
    decreases list, 6
  {
    if IsWord(list, "insert into") then InsertOf(list.tail)
    else if IsWord(list, "update") then UpdateOf(list.tail)
    else if IsWord(list, "delete from") then DeleteOf(list.tail)
    else Query(list)
  }

  function ReturningOf(list: List): (r: Option<(seq<Selected>, List)>)
    ensures r.Some? ==> r.value.1 == list || r.value.1 < list
    decreases list, 5
  {
    if IsWord(list, "returning") then SelectedAll(list.tail) else Some(([], list))
  }

  function AssignmentsOf(list: List): (r: Option<(seq<(string, Surface)>, List)>)
    ensures r.Some? ==> r.value.1 == list || r.value.1 < list
    decreases list, 5
  {
    if !(IsIdentifier(list) && IsWord(list.tail, "=")) then Some(([], list))
    else
      match Expression(list.tail.tail)
      case None => None
      case Some((value, rest)) =>
        match rest
        case Cons(Plain(Comma), tail) =>
          (match AssignmentsOf(tail)
           case None => None
           case Some((more, last)) => Some(([(list.head.token.name, value)] + more, last)))
        case _ => Some(([(list.head.token.name, value)], rest))
  }

  function UpdateOf(list: List): (r: Option<(QuerySaid, List)>)
    ensures r.Some? ==> r.value.1 < list
    decreases list, 6
  {
    match TableOf(list)
    case None => None
    case Some((table, rest)) =>
      if !IsWord(rest, "set") then None
      else
        match AssignmentsOf(rest.tail)
        case None => None
        case Some((assignments, last)) =>
          match ClauseOf("where", last)
          case None => None
          case Some((condition, later)) =>
            match ReturningOf(later)
            case None => None
            case Some((returning, final)) => Some((UpdateSaid(table, assignments, condition, returning), final))
  }

  function DeleteOf(list: List): (r: Option<(QuerySaid, List)>)
    ensures r.Some? ==> r.value.1 < list
    decreases list, 6
  {
    match TableOf(list)
    case None => None
    case Some((table, rest)) =>
      match ClauseOf("where", rest)
      case None => None
      case Some((condition, last)) =>
        match ReturningOf(last)
        case None => None
        case Some((returning, final)) => Some((DeleteSaid(table, condition, returning), final))
  }

  function InsertOf(list: List): (r: Option<(QuerySaid, List)>)
    ensures r.Some? ==> r.value.1 < list
    decreases list, 6
  {
    match TableOf(list)
    case None => None
    case Some((table, rest)) =>
      match InsertedOf(rest)
      case None => None
      case Some((columns, body, conflict, last)) =>
        match ReturningOf(last)
        case None => None
        case Some((returning, final)) => Some((InsertSaid(table, columns, body, conflict, returning), final))
  }

  function InsertedOf(list: List): (r: Option<(seq<string>, BodySaid, Option<ConflictSaid>, List)>)
    ensures r.Some? ==> r.value.3 < list
    decreases list, 6
  {
    if IsWord(list, "default values") then Some(([], NoValues, None, list.tail)) else ValuesOf(list)
  }

  /** The columns, what is inserted into them, and what happens on a conflict. */
  function ValuesOf(list: List): (r: Option<(seq<string>, BodySaid, Option<ConflictSaid>, List)>)
    ensures r.Some? ==> r.value.3 < list
    decreases list, 5
  {
    match Past(list, Opens)
    case None => None
    case Some(tail) =>
      match ColumnsOf(tail)
      case None => None
      case Some((columns, rest)) =>
        match BodyOf(rest)
        case None => None
        case Some((body, last)) =>
          match ConflictOf(last)
          case None => None
          case Some((conflict, final)) => Some((columns, body, conflict, final))
  }

  function BodyOf(list: List): (r: Option<(BodySaid, List)>)
    ensures r.Some? ==> r.value.1 < list
    decreases list, 3
  {
    if IsWord(list, "values") then
      match RowsOf(list.tail)
      case None => None
      case Some((rows, rest)) => Some((RowsSaid(rows), rest))
    else
      match Query(list)
      case None => None
      case Some((query, rest)) => Some((QueryBody(query), rest))
  }

  function RowsOf(list: List): (r: Option<(seq<seq<Surface>>, List)>)
    ensures r.Some? ==> r.value.1 < list
    decreases list, 5
  {
    match Past(list, Opens)
    case None => None
    case Some(tail) =>
      match Arguments(tail)
      case None => None
      case Some((row, rest)) =>
        match rest
        case Cons(Plain(Comma), next) =>
          (match RowsOf(next)
           case None => None
           case Some((more, last)) => Some(([row] + more, last)))
        case _ => Some(([row], rest))
  }

  function ConflictOf(list: List): (r: Option<(Option<ConflictSaid>, List)>)
    ensures r.Some? ==> r.value.1 == list || r.value.1 < list
    decreases list, 5
  {
    if !IsWord(list, "on conflict") then Some((None, list))
    else
      match if list.tail.Cons? && list.tail.head.Opens? then ColumnsOf(list.tail.tail) else Some(([], list.tail))
      case None => None
      case Some((columns, rest)) =>
        match ClauseOf("where", rest)
        case None => None
        case Some((target, last)) =>
          match ActionOf(last)
          case None => None
          case Some((action, final)) => Some((Some(ConflictSaid(columns, target, action)), final))
  }

  function ActionOf(list: List): (r: Option<(ActionSaid, List)>)
    ensures r.Some? ==> r.value.1 < list
    decreases list, 5
  {
    if IsWord(list, "do nothing") then Some((DoNothing, list.tail))
    else if !IsWord(list, "do update set") then None
    else
      match AssignmentsOf(list.tail)
      case None => None
      case Some((assignments, rest)) =>
        match ClauseOf("where", rest)
        case None => None
        case Some((condition, last)) => Some((DoUpdate(assignments, condition), last))
  }
}
