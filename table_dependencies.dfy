/**
 * Which tables a layer reads: `affected_tables` and the helpers it is built
 * from, and the permission checks built on it. A layer pointing at an
 * analysis node collects the tables of all the node's source descendants;
 * any other layer uses its own `query` and `table_name` options.
 */
module TableDependencies {
  import opened Wrappers
  import opened RubyStrings
  import opened RubyArrays
  import opened LayerConfig
  import opened QueryTables

  /**
   * affected_table_names(query): the names CDB_QueryTables reports for the
   * query; nothing for a blank query; the database error when the helper fails.
   */
  function AffectedTableNames<T>(env: Collaborators<T>, query: Option<string>): (r: Result<seq<string>, DbError>)
    ensures !Present(query) ==> r == Ok([])
    ensures r.Err? <==> Present(query) && env.queryTables(query.value).Err?
    ensures r.Ok? ==> NoDuplicates(r.value) && forall n :: n in r.value ==> !IsBlank(n) && !HasBrace(n)
    ensures Present(query) && env.queryTables(query.value).Ok? ==>
      r == Ok(ParseQueryTables(env.queryTables(query.value).value))
  {
    if !Present(query) then Ok([])
    else
      match env.queryTables(query.value)
      case Err(e) => Err(e)
      case Ok(raw) => Ok(ParseQueryTables(raw))
  }

  /**
   * tables_from_query(query): the tables the query reads. It never fails: a
   * blank query, a failing helper and a failing lookup all give no tables.
   */
  function TablesFromQuery<T>(env: Collaborators<T>, query: Option<string>): (r: seq<Option<T>>)
    ensures !Present(query) ==> r == []
    ensures AffectedTableNames(env, query).Err? ==> r == []
    ensures (Present(query) && AffectedTableNames(env, query).Ok?
             && env.tablesByNames(AffectedTableNames(env, query).value).Err?) ==> r == []
    ensures (Present(query) && AffectedTableNames(env, query).Ok?
             && env.tablesByNames(AffectedTableNames(env, query).value).Ok?) ==>
      r == env.tablesByNames(AffectedTableNames(env, query).value).value
  {
    if !Present(query) then []
    else
      match AffectedTableNames(env, query)
      case Err(_) => []
      case Ok(names) =>
        match env.tablesByNames(names)
        case Err(_) => []
        case Ok(tables) => tables
  }

  /**
   * The name tables_from_table_name_option looks up: the table name behind
   * `"user_name".` when both are present and the name has no dot; otherwise
   * the table name as given (nil interpolates as the empty string).
   */
  function SchemaQualifiedName(userName: Option<string>, tableName: Option<string>): (r: string)
    ensures Present(userName) && Present(tableName) && '.' !in tableName.value ==>
      r == "\"" + userName.value + "\"." + tableName.value
    ensures !(Present(userName) && Present(tableName) && '.' !in tableName.value) ==> r == tableName.GetOr("")
  {
    var schemaPrefix :=
      if Present(userName) && Present(tableName) && '.' !in tableName.value then "\"" + userName.value + "\"."
      else "";
    schemaPrefix + tableName.GetOr("")
  }

  /** Qualifying a qualified name again changes nothing. */
  lemma SchemaQualifiedNameIdempotent(userName: Option<string>, tableName: Option<string>)
    ensures SchemaQualifiedName(userName, Some(SchemaQualifiedName(userName, tableName)))
      == SchemaQualifiedName(userName, tableName)
  {
  }

  /** The name is changed exactly when the schema prefix is added. */
  lemma SchemaQualifiedNameChanges(userName: Option<string>, tableName: Option<string>)
    ensures SchemaQualifiedName(userName, tableName) != tableName.GetOr("")
      <==> Present(userName) && Present(tableName) && '.' !in tableName.value
  {
  }

  /**
   * tables_from_table_name_option: nothing for empty options; otherwise the
   * lookup of the single schema-qualified name, whose error propagates.
   */
  function TablesFromTableNameOption<T>(env: Collaborators<T>, o: Options): (r: Result<seq<Option<T>>, DbError>)
    ensures IsEmpty(o) ==> r == Ok([])
    ensures !IsEmpty(o) ==> r == env.tablesByNames([SchemaQualifiedName(o.userName, o.tableName)])
  {
    if IsEmpty(o) then Ok([]) else env.tablesByNames([SchemaQualifiedName(o.userName, o.tableName)])
  }

  /**
   * The tables one source node contributes: those of its query, then those of
   * its table name (looked up only when the node has one; that error propagates).
   */
  function NodeTables<T>(env: Collaborators<T>, node: AnalysisNode): (r: Result<seq<Option<T>>, DbError>)
    ensures r.Err? <==> NodeRaises(env, node)
    ensures r.Err? ==> r.error == env.tablesByNames([node.tableName.value]).error
    ensures r.Ok? && node.tableName.None? ==> r.value == TablesFromQuery(env, node.query)
    ensures r.Ok? && node.tableName.Some? ==>
      r.value == TablesFromQuery(env, node.query) + env.tablesByNames([node.tableName.value]).value
  {
    var byQuery := TablesFromQuery(env, node.query);
    match node.tableName
    case None => Ok(byQuery)
    case Some(t) =>
      match env.tablesByNames([t])
      case Err(e) => Err(e)
      case Ok(byName) => Ok(byQuery + byName)
  }

  /** The lookup of the node's table name raises. */
  predicate NodeRaises<T>(env: Collaborators<T>, node: AnalysisNode) {
    node.tableName.Some? && env.tablesByNames([node.tableName.value]).Err?
  }

  /** The position of the first source node whose table-name lookup raises (|nodes| when none does). */
  function FirstFailing<T>(env: Collaborators<T>, nodes: seq<AnalysisNode>): (k: nat)
    ensures k <= |nodes|
    ensures forall i :: 0 <= i < k ==> !NodeRaises(env, nodes[i])
    ensures k < |nodes| ==> NodeRaises(env, nodes[k])
  {
    if nodes == [] then 0
    else if NodeRaises(env, nodes[0]) then 0
    else
      var k := FirstFailing(env, nodes[1..]);
      assert forall i :: 1 <= i < k + 1 ==> nodes[i] == nodes[1..][i - 1];
      1 + k
  }

  /** The per-node tables of every source node, in order; the first node that raises aborts the walk. */
  function NodesTables<T>(env: Collaborators<T>, nodes: seq<AnalysisNode>): (r: Result<seq<seq<Option<T>>>, DbError>)
    ensures r.Err? <==> FirstFailing(env, nodes) < |nodes|
    ensures r.Err? ==> r.error == env.tablesByNames([nodes[FirstFailing(env, nodes)].tableName.value]).error
    ensures r.Ok? ==> |r.value| == |nodes| && forall i :: 0 <= i < |nodes| ==> r.value[i] == NodeTables(env, nodes[i]).value
  {
    if nodes == [] then Ok([])
    else
      match NodeTables(env, nodes[0])
      case Err(e) => Err(e)
      case Ok(first) =>
        var rest := NodesTables(env, nodes[1..]);
        assert nodes[1..][FirstFailing(env, nodes[1..])..] == nodes[1 + FirstFailing(env, nodes[1..])..];
        match rest
        case Err(e) => Err(e)
        case Ok(others) =>
          assert forall i :: 1 <= i < |nodes| ==> nodes[i] == nodes[1..][i - 1];
          Ok([first] + others)
  }

  /** The source descendants of the node the layer points at, when the graph branch applies and the node exists. */
  function GraphSources<T>(env: Collaborators<T>, layer: LayerData): (r: Option<seq<AnalysisNode>>)
    requires layer.owningMap.Some? && Present(layer.options.source)
    ensures var found := env.findNode(layer.owningMap.value.visualizationId, layer.options.source.value);
      (r.None? <==> found.None?) && (r.Some? ==> r.value == env.sourceDescendants(found.value))
  {
    match env.findNode(layer.owningMap.value.visualizationId, layer.options.source.value)
    case None => None
    case Some(node) => Some(env.sourceDescendants(node))
  }

  /** Every table the layer's configuration leads to, in the order found, repeats and nils dropped. */
  function Candidates<T(==,!new)>(env: Collaborators<T>, layer: LayerData): (r: Result<seq<T>, DbError>)
    ensures layer.owningMap.None? || IsEmpty(layer.options) ==> r == Ok([])
    ensures layer.owningMap.Some? && !IsEmpty(layer.options) && Present(layer.options.source) ==>
      match GraphSources(env, layer)
      case None => r == Ok([])
      case Some(nodes) => r.Err? <==> FirstFailing(env, nodes) < |nodes|
    ensures layer.owningMap.Some? && !IsEmpty(layer.options) && !Present(layer.options.source) ==>
      (r.Err? <==> TablesFromTableNameOption(env, layer.options).Err?)
  {
    if layer.owningMap.None? || IsEmpty(layer.options) then Ok([])
    else if Present(layer.options.source) then
      match GraphSources(env, layer)
      case None => Ok([])
      case Some(nodes) =>
        match NodesTables(env, nodes)
        case Err(e) => Err(e)
        case Ok(perNode) => Ok(Compact(Flatten(perNode)))
    else
      match TablesFromTableNameOption(env, layer.options)
      case Err(e) => Err(e)
      case Ok(byName) => Ok(Compact(TablesFromQuery(env, layer.options.query) + byName))
  }

  /**
   * affected_tables: the candidate tables without repeats, each at its first
   * occurrence; nothing for a layer without a map or with empty options.
   */
  function AffectedTables<T(==,!new)>(env: Collaborators<T>, layer: LayerData): (r: Result<seq<T>, DbError>)
    ensures layer.owningMap.None? || IsEmpty(layer.options) ==> r == Ok([])
    ensures r.Ok? <==> Candidates(env, layer).Ok?
    ensures r.Err? ==> r == Candidates(env, layer)
    ensures r.Ok? ==> NoDuplicates(r.value)
    ensures r.Ok? ==> forall x :: x in r.value <==> x in Candidates(env, layer).value
    ensures r.Ok? ==> forall i, j :: 0 <= i < j < |r.value| ==>
      FirstIndex(Candidates(env, layer).value, r.value[i]) < FirstIndex(Candidates(env, layer).value, r.value[j])
  {
    match Candidates(env, layer)
    case Err(e) => Err(e)
    case Ok(found) =>
      UniqFirstOccurrenceOrder(found);
      Ok(Uniq(found))
  }

  /** A missing map, empty options, or a source node that cannot be found all mean no dependencies. */
  lemma AffectedTablesNone<T(!new)>(env: Collaborators<T>, layer: LayerData)
    requires layer.owningMap.None? || IsEmpty(layer.options)
      || (Present(layer.options.source)
          && env.findNode(layer.owningMap.value.visualizationId, layer.options.source.value).None?)
    ensures AffectedTables(env, layer) == Ok([])
  {
  }

  /**
   * Graph branch: the walk fails exactly when a node's table-name lookup
   * fails; otherwise a table is a dependency exactly when some source node
   * contributes it.
   */
  lemma GraphBranchTables<T(!new)>(env: Collaborators<T>, layer: LayerData, nodes: seq<AnalysisNode>)
    requires layer.owningMap.Some? && Present(layer.options.source)
    requires GraphSources(env, layer) == Some(nodes)
    ensures AffectedTables(env, layer).Ok? <==> forall i :: 0 <= i < |nodes| ==> NodeTables(env, nodes[i]).Ok?
    ensures AffectedTables(env, layer).Ok? ==> forall x :: x in AffectedTables(env, layer).value <==>
      exists i :: 0 <= i < |nodes| && Some(x) in NodeTables(env, nodes[i]).value
  {
  }

  /**
   * Graph branch: a node whose query cannot be analysed never makes the walk
   * fail, since only the nodes' table-name lookups can; it contributes no
   * query tables, and still contributes the tables of its table name.
   */
  lemma GraphBranchFailingQuery<T(!new)>(env: Collaborators<T>, layer: LayerData, nodes: seq<AnalysisNode>, k: nat)
    requires layer.owningMap.Some? && Present(layer.options.source)
    requires GraphSources(env, layer) == Some(nodes)
    requires k < |nodes| && AffectedTableNames(env, nodes[k].query).Err?
    ensures AffectedTables(env, layer).Ok? <==> forall i :: 0 <= i < |nodes| ==> !NodeRaises(env, nodes[i])
    ensures TablesFromQuery(env, nodes[k].query) == []
    ensures AffectedTables(env, layer).Ok? && nodes[k].tableName.Some? ==>
      forall x :: Some(x) in env.tablesByNames([nodes[k].tableName.value]).value ==> x in AffectedTables(env, layer).value
  {
    GraphBranchTables(env, layer, nodes);
  }

  /** Graph branch: the layer's own query, table and user names are not consulted. */
  lemma GraphBranchIgnoresOwnOptions<T(!new)>(env: Collaborators<T>, a: LayerData, b: LayerData)
    requires a.owningMap == b.owningMap && a.owningMap.Some?
    requires a.options.source == b.options.source && Present(a.options.source)
    ensures AffectedTables(env, a) == AffectedTables(env, b)
  {
  }

  /**
   * Direct branch: the layer's own query tables and table-name tables; it
   * fails exactly when the table-name lookup fails.
   */
  lemma DirectBranchTables<T(!new)>(env: Collaborators<T>, layer: LayerData)
    requires layer.owningMap.Some? && !IsEmpty(layer.options) && !Present(layer.options.source)
    ensures var byName := env.tablesByNames([SchemaQualifiedName(layer.options.userName, layer.options.tableName)]);
      && (AffectedTables(env, layer).Err? <==> byName.Err?)
      && (AffectedTables(env, layer).Ok? ==> forall x :: x in AffectedTables(env, layer).value <==>
            Some(x) in TablesFromQuery(env, layer.options.query) || Some(x) in byName.value)
  {
  }

  /**
   * Options whose only entry is `table_name` holding nil are not empty: the
   * direct branch looks the empty name up, and its error propagates.
   */
  lemma NilTableNameLookedUp<T(!new)>(env: Collaborators<T>, layer: LayerData)
    requires layer.owningMap.Some?
    requires layer.options == Options(None, None, None, None, None, 1)
    ensures AffectedTables(env, layer).Err? <==> env.tablesByNames([""]).Err?
    ensures AffectedTables(env, layer).Ok? ==>
      forall x :: x in AffectedTables(env, layer).value <==> Some(x) in env.tablesByNames([""]).value
  {
    DirectBranchTables(env, layer);
  }

  /** affected_tables_readable_by(user): the dependencies `readable` accepts, in their order. */
  function AffectedTablesReadableBy<T(==,!new)>(env: Collaborators<T>, layer: LayerData, readable: T -> bool)
    : (r: Result<seq<T>, DbError>)
    ensures r.Err? <==> AffectedTables(env, layer).Err?
    ensures r.Ok? ==> NoDuplicates(r.value)
    ensures r.Ok? ==> forall x :: x in r.value <==> x in AffectedTables(env, layer).value && readable(x)
    ensures r.Ok? ==> forall i, j :: 0 <= i < j < |r.value| ==>
      FirstIndex(AffectedTables(env, layer).value, r.value[i]) < FirstIndex(AffectedTables(env, layer).value, r.value[j])
  {
    match AffectedTables(env, layer)
    case Err(e) => Err(e)
    case Ok(tables) =>
      SelectNoDuplicates(tables, readable);
      SelectKeepsOrder(tables, readable);
      Ok(Select(tables, readable))
  }

  /** data_readable_by?(user): every dependency is readable. */
  function DataReadableBy<T(==,!new)>(env: Collaborators<T>, layer: LayerData, readable: T -> bool)
    : (r: Result<bool, DbError>)
    ensures r.Err? <==> AffectedTables(env, layer).Err?
    ensures r.Ok? ==> (r.value <==> forall x :: x in AffectedTables(env, layer).value ==> readable(x))
  {
    match AffectedTables(env, layer)
    case Err(e) => Err(e)
    case Ok(tables) => Ok(All(tables, readable))
  }

  /** The data is readable exactly when the readable filter removes nothing. */
  lemma DataReadableIffNothingFiltered<T(!new)>(env: Collaborators<T>, layer: LayerData, readable: T -> bool)
    requires AffectedTables(env, layer).Ok?
    ensures DataReadableBy(env, layer, readable).value
      <==> AffectedTablesReadableBy(env, layer, readable).value == AffectedTables(env, layer).value
  {
    SelectDropsNothingIffAll(AffectedTables(env, layer).value, readable);
  }
}
