/**
 * The SQL a layer renders with: `qualified_table_name`, `default_query` and
 * the torque `wrapped_sql`. `safe_table_name_quoting` is a parameter
 * (`quote`), and so is the owner's `sql_safe_database_schema` (`ownerSchema`).
 */
module LayerSql {
  import opened Wrappers
  import opened RubyStrings
  import opened LayerKinds
  import opened LayerConfig

  /** The placeholder a query wrapper marks the layer's SQL with. */
  const SqlPlaceholder: string := "<%= sql %>"

  /** The query used when the layer's table lives in another user's schema. */
  function OwnerQualifiedQuery(userName: string, quotedTable: string): (r: string)
    ensures |r| == 19 + |userName| + |quotedTable|
    ensures r[..16] == " select * from \"" && r[16..16 + |userName|] == userName
    ensures r[16 + |userName|..18 + |userName|] == "\"." && r[18 + |userName|..|r| - 1] == quotedTable
    ensures r[|r| - 1] == ' '
  {
    " select * from \"" + userName + "\"." + quotedTable + " "
  }

  /**
   * qualified_table_name(schema_owner_user): a dotted table name as it is;
   * otherwise the quoted name, behind the owner's schema when an owner is given.
   */
  function QualifiedTableName(o: Options, ownerSchema: Option<string>, quote: Option<string> -> string): (r: string)
    ensures Present(o.tableName) && '.' in o.tableName.value ==> r == o.tableName.value
    ensures ownerSchema.None? && !(Present(o.tableName) && '.' in o.tableName.value) ==> r == quote(o.tableName)
    ensures ownerSchema.Some? && !(Present(o.tableName) && '.' in o.tableName.value) ==>
      r == ownerSchema.value + "." + quote(o.tableName)
  {
    if Present(o.tableName) && '.' in o.tableName.value then o.tableName.value
    else
      var schemaPrefix := match ownerSchema case None => "" case Some(s) => s + ".";
      schemaPrefix + quote(o.tableName)
  }

  /** The table is shown through its owner's schema: named without a schema, owned by someone other than the requester. */
  predicate NeedsOwnerSchema(o: Options, requester: Option<string>)
    ensures requester == o.userName ==> !NeedsOwnerSchema(o, requester)
    ensures o.tableName.Some? && '.' in o.tableName.value ==> !NeedsOwnerSchema(o, requester)
    ensures NeedsOwnerSchema(o, requester) ==> o.userName.Some? && o.tableName.Some?
  {
    Present(o.tableName) && '.' !in o.tableName.value && Present(o.userName) && requester != o.userName
  }

  /**
   * default_query(user): the explicit query if present; otherwise a select of
   * the whole table. `requester` is the requesting user's username (None when
   * no user is given).
   */
  function DefaultQuery(o: Options, requester: Option<string>, quote: Option<string> -> string): (r: string)
    ensures Present(o.query) ==> r == o.query.value
    ensures !Present(o.query) ==>
      (NeedsOwnerSchema(o, requester) && r == OwnerQualifiedQuery(o.userName.value, quote(o.tableName)))
      || (!NeedsOwnerSchema(o, requester) && r == "SELECT * FROM " + QualifiedTableName(o, None, quote))
  {
    if Present(o.query) then o.query.value
    else if NeedsOwnerSchema(o, requester) then OwnerQualifiedQuery(o.userName.value, quote(o.tableName))
    else "SELECT * FROM " + QualifiedTableName(o, None, quote)
  }

  /** A dotted table name is selected from verbatim, never behind another schema. */
  lemma DefaultQueryDottedName(o: Options, requester: Option<string>, quote: Option<string> -> string)
    requires !Present(o.query) && Present(o.tableName) && '.' in o.tableName.value
    ensures DefaultQuery(o, requester, quote) == "SELECT * FROM " + o.tableName.value
  {
  }

  /** Another user's table named without a schema is selected through that user's schema. */
  lemma DefaultQueryForeignTable(o: Options, requester: Option<string>, quote: Option<string> -> string)
    requires !Present(o.query) && Present(o.tableName) && '.' !in o.tableName.value
    requires Present(o.userName) && requester != o.userName
    ensures DefaultQuery(o, requester, quote)
      == " select * from \"" + o.userName.value + "\"." + quote(o.tableName) + " "
  {
  }

  /** The owner asking for their own table gets the plain quoted name. */
  lemma DefaultQueryOwnTable(o: Options, requester: Option<string>, quote: Option<string> -> string)
    requires !Present(o.query) && Present(o.tableName) && '.' !in o.tableName.value
    requires requester == o.userName
    ensures DefaultQuery(o, requester, quote) == "SELECT * FROM " + quote(o.tableName)
  {
  }

  /**
   * wrapped_sql(user): for a torque layer with a query wrapper, the wrapper
   * with every placeholder replaced by the default query; otherwise the
   * default query.
   */
  function WrappedSql(layer: LayerData, requester: Option<string>, quote: Option<string> -> string): (r: string)
    ensures !(Present(layer.options.queryWrapper) && IsTorque(layer.kind)) ==>
      r == DefaultQuery(layer.options, requester, quote)
  {
    var sql := DefaultQuery(layer.options, requester, quote);
    if Present(layer.options.queryWrapper) && IsTorque(layer.kind) then
      ReplaceAll(layer.options.queryWrapper.value, SqlPlaceholder, sql)
    else sql
  }

  lemma PlaceholderStartsWithNonSpace()
    ensures |SqlPlaceholder| > 0 && !IsSpace(SqlPlaceholder[0])
  {
    assert SqlPlaceholder[0] == '<';
  }

  lemma WrappedSqlTorque(layer: LayerData, requester: Option<string>, quote: Option<string> -> string)
    requires IsTorque(layer.kind) && Present(layer.options.queryWrapper)
    ensures WrappedSql(layer, requester, quote)
      == ReplaceAll(layer.options.queryWrapper.value, SqlPlaceholder, DefaultQuery(layer.options, requester, quote))
  {
  }

  /**
   * A wrapper `pre <%= sql %> post` (no placeholder starting inside `pre`,
   * none in `post`) becomes `pre`, the default query, `post`.
   */
  lemma WrappedSqlSubstitutes(layer: LayerData, requester: Option<string>, quote: Option<string> -> string,
                              pre: string, post: string)
    requires IsTorque(layer.kind)
    requires layer.options.queryWrapper == Some(pre + SqlPlaceholder + post)
    requires forall i: nat :: i < |pre| ==> !OccursAt(pre + SqlPlaceholder + post, SqlPlaceholder, i)
    requires forall i: nat :: !OccursAt(post, SqlPlaceholder, i)
    ensures WrappedSql(layer, requester, quote) == pre + DefaultQuery(layer.options, requester, quote) + post
  {
    PlaceholderStartsWithNonSpace();
    SurroundedNotBlank(pre, SqlPlaceholder, post);
    WrappedSqlTorque(layer, requester, quote);
    ReplaceAllSingle(pre, post, SqlPlaceholder, DefaultQuery(layer.options, requester, quote));
  }

  /** A torque wrapper without any placeholder replaces the layer's SQL by itself. */
  lemma WrappedSqlWithoutPlaceholder(layer: LayerData, requester: Option<string>, quote: Option<string> -> string)
    requires IsTorque(layer.kind) && Present(layer.options.queryWrapper)
    requires forall i: nat :: !OccursAt(layer.options.queryWrapper.value, SqlPlaceholder, i)
    ensures WrappedSql(layer, requester, quote) == layer.options.queryWrapper.value
  {
    ReplaceAllNoOccurrence(layer.options.queryWrapper.value, SqlPlaceholder,
                           DefaultQuery(layer.options, requester, quote));
  }

  /**
   * A torque wrapper holding one or more placeholders, each standing between
   * two of the pieces `ps` and no other occurrence anywhere, becomes those
   * pieces with the default query in place of every placeholder.
   */
  lemma WrappedSqlReplacesEvery(layer: LayerData, requester: Option<string>, quote: Option<string> -> string,
                                ps: seq<string>)
    requires IsTorque(layer.kind) && |ps| >= 2
    requires layer.options.queryWrapper == Some(Interleave(ps, SqlPlaceholder))
    requires OnlyAtGlue(ps, SqlPlaceholder)
    ensures WrappedSql(layer, requester, quote) == Interleave(ps, DefaultQuery(layer.options, requester, quote))
  {
    var sql := DefaultQuery(layer.options, requester, quote);
    PlaceholderStartsWithNonSpace();
    InterleaveNotBlank(ps, SqlPlaceholder);
    WrappedSqlTorque(layer, requester, quote);
    ReplaceAllInterleave(ps, SqlPlaceholder, sql);
  }
}
