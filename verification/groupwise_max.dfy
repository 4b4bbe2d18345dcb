/**
 * The groupwise-maximum relationship handler: it builds a correlated
 * subquery that picks one representative row of the joined base table, and
 * joins through it. The scratch view that builds the subquery, its SQL
 * serialisation and the cache backend belong to the host and are parameters
 * or small classes here; the rewriting passes run imperatively on the query
 * object, each proved against the value-level rewrite.
 */
module GroupwiseMax {
  import opened PhpValues
  import opened SelectQueryModel
  import opened GroupwiseMaxRewrite
  import opened HandlerOptions

  /** The keys of the relationship definition the handler reads. */
  datatype RelationshipDefinition = RelationshipDefinition(
    base: string,
    field: string,
    outerField: string,
    argumentTable: string,
    argumentField: string,
    baseField: string,
    joinId: Value,
    joinType: Option<string>)

  /** The handler's options; FALSE and NULL defaults of text options read as "". */
  datatype RelationshipOptions = RelationshipOptions(
    id: string,
    required: bool,
    subquerySort: string,
    subqueryOrder: string,
    subqueryRegenerate: bool,
    subqueryView: string,
    subqueryNamespace: string)

  /** `option_definition()`: the parent's definitions plus the five subquery options. */
  function OptionDefinition(parent: OptionDefinitions): (r: OptionDefinitions)
    ensures Lookup(r, "subquery_namespace") == Some(OptionInfo(Bool(false), false))
  {
    var sort := Define(parent, "subquery_sort", Null, false);
    var order := Define(sort, "subquery_order", Str("DESC"), false);
    var regenerate := Define(order, "subquery_regenerate", Bool(false), true);
    var view := Define(regenerate, "subquery_view", Bool(false), false);
    Define(view, "subquery_namespace", Bool(false), false)
  }

  /** Every definition other than the five subquery options is the parent's. */
  lemma OptionDefinitionKeepsParent(parent: OptionDefinitions, k: string)
    requires k !in SubqueryOptionNames
    ensures Lookup(OptionDefinition(parent), k) == Lookup(parent, k)
  {
    var sort := Define(parent, "subquery_sort", Null, false);
    var order := Define(sort, "subquery_order", Str("DESC"), false);
    var regenerate := Define(order, "subquery_regenerate", Bool(false), true);
    var view := Define(regenerate, "subquery_view", Bool(false), false);
    DefineKeeps(parent, "subquery_sort", Null, false, k);
    DefineKeeps(sort, "subquery_order", Str("DESC"), false, k);
    DefineKeeps(order, "subquery_regenerate", Bool(false), true, k);
    DefineKeeps(regenerate, "subquery_view", Bool(false), false, k);
    DefineKeeps(view, "subquery_namespace", Bool(false), false, k);
  }

  /** The sort field defaults to NULL. */
  lemma SortDefault(parent: OptionDefinitions)
    ensures DefaultOf(OptionDefinition(parent), "subquery_sort") == Some(Null)
  {
    var sort := Define(parent, "subquery_sort", Null, false);
    var order := Define(sort, "subquery_order", Str("DESC"), false);
    var regenerate := Define(order, "subquery_regenerate", Bool(false), true);
    var view := Define(regenerate, "subquery_view", Bool(false), false);
    SortIsNotView();
    DefineKeeps(sort, "subquery_order", Str("DESC"), false, "subquery_sort");
    DefineKeeps(order, "subquery_regenerate", Bool(false), true, "subquery_sort");
    DefineKeeps(regenerate, "subquery_view", Bool(false), false, "subquery_sort");
    DefineKeeps(view, "subquery_namespace", Bool(false), false, "subquery_sort");
  }

  /** The two option names of equal length differ in their tenth letter. */
  lemma SortIsNotView()
    ensures "subquery_sort" != "subquery_view"
  {
    assert "subquery_sort"[9] != "subquery_view"[9];
  }

  /** The sort order defaults to DESC. */
  lemma OrderDefault(parent: OptionDefinitions)
    ensures DefaultOf(OptionDefinition(parent), "subquery_order") == Some(Str("DESC"))
  {
    var sort := Define(parent, "subquery_sort", Null, false);
    var order := Define(sort, "subquery_order", Str("DESC"), false);
    var regenerate := Define(order, "subquery_regenerate", Bool(false), true);
    var view := Define(regenerate, "subquery_view", Bool(false), false);
    DefineKeeps(order, "subquery_regenerate", Bool(false), true, "subquery_order");
    DefineKeeps(regenerate, "subquery_view", Bool(false), false, "subquery_order");
    DefineKeeps(view, "subquery_namespace", Bool(false), false, "subquery_order");
  }

  /** Regeneration defaults to FALSE and is the one option flagged as boolean. */
  lemma RegenerateDefault(parent: OptionDefinitions)
    ensures Lookup(OptionDefinition(parent), "subquery_regenerate") == Some(OptionInfo(Bool(false), true))
  {
    var sort := Define(parent, "subquery_sort", Null, false);
    var order := Define(sort, "subquery_order", Str("DESC"), false);
    var regenerate := Define(order, "subquery_regenerate", Bool(false), true);
    var view := Define(regenerate, "subquery_view", Bool(false), false);
    DefineKeeps(regenerate, "subquery_view", Bool(false), false, "subquery_regenerate");
    DefineKeeps(view, "subquery_namespace", Bool(false), false, "subquery_regenerate");
  }

  /** The subquery view and the namespace default to FALSE. */
  lemma ViewAndNamespaceDefaults(parent: OptionDefinitions)
    ensures DefaultOf(OptionDefinition(parent), "subquery_view") == Some(Bool(false))
    ensures DefaultOf(OptionDefinition(parent), "subquery_namespace") == Some(Bool(false))
  {
    var sort := Define(parent, "subquery_sort", Null, false);
    var order := Define(sort, "subquery_order", Str("DESC"), false);
    var regenerate := Define(order, "subquery_regenerate", Bool(false), true);
    var view := Define(regenerate, "subquery_view", Bool(false), false);
    DefineKeeps(view, "subquery_namespace", Bool(false), false, "subquery_view");
  }

  const SubqueryOptionNames: set<string> :=
    {"subquery_sort", "subquery_order", "subquery_regenerate", "subquery_view", "subquery_namespace"}

  /**
   * The host builds the scratch view's query from the options and the view
   * namespace: either the named subquery view with its fields removed, or a
   * new view on the base table with the option's sort, the base id field
   * and the correlating argument.
   */
  type QueryBuilder = (RelationshipOptions, string) -> SelectParts

  /** The query's SQL text, as the host serialises it. */
  type Serialiser = SelectParts -> string

  /** The sort the order pass renames after: the option's, unless a whole view supplies its own sorts. */
  function SortFrom(o: RelationshipOptions): (r: Option<SortRef>)
    ensures r.None? <==> !EmptyText(o.subqueryView)
  {
    if !EmptyText(o.subqueryView) then None else Some(SplitSortKey(o.subquerySort))
  }

  /** The SQL `left_query($options)` returns. */
  function LeftQuerySql(def: RelationshipDefinition, o: RelationshipOptions, build: QueryBuilder, toSql: Serialiser): string
  {
    var built := build(o, TempViewNamespace(o.subqueryNamespace));
    var rewritten := RewrittenParts(built, def.field, SubqueryNamespace(o.subqueryNamespace), SortFrom(o));
    SubstituteOuterField(toSql(rewritten), def.outerField)
  }

  /** The subquery is built with the scratch view namespace and rewritten under the subquery namespace. */
  lemma LeftQueryNamespaces(def: RelationshipDefinition, o: RelationshipOptions, build: QueryBuilder, toSql: Serialiser)
    ensures EmptyText(o.subqueryNamespace) ==>
      LeftQuerySql(def, o, build, toSql) ==
        SubstituteOuterField(toSql(RewrittenParts(build(o, "_INNER"), def.field, "INNER", SortFrom(o))), def.outerField)
    ensures !EmptyText(o.subqueryNamespace) ==>
      var ns := "_" + o.subqueryNamespace;
      LeftQuerySql(def, o, build, toSql) ==
        SubstituteOuterField(toSql(RewrittenParts(build(o, ns), def.field, ns, SortFrom(o))), def.outerField)
  {
    NamespaceChoice(o.subqueryNamespace);
  }

  // ---------------------------------------------------------------------
  // The cache of subquery SQL

  /** `'views_relationship_groupwise_max:' . view name . ':' . display . ':' . option id`. */
  function CacheId(viewName: string, display: string, id: string): string
  {
    "views_relationship_groupwise_max:" + viewName + ":" + display + ":" + id
  }

  /** Relationships of the same view and display are cached apart. */
  lemma {:induction false} CacheIdSeparatesIds(viewName: string, display: string, id1: string, id2: string)
    ensures CacheId(viewName, display, id1) == CacheId(viewName, display, id2) <==> id1 == id2
  {
    var prefix := "views_relationship_groupwise_max:" + viewName + ":" + display + ":";
    assert CacheId(viewName, display, id1) == prefix + id1;
    assert CacheId(viewName, display, id2) == prefix + id2;
    assert (prefix + id1)[|prefix|..] == id1;
    assert (prefix + id2)[|prefix|..] == id2;
  }

  /** The separator is not escaped: a view name holding a colon can share a key with another display. */
  lemma CacheIdAmbiguous()
    ensures CacheId("a:b", "c", "d") == CacheId("a", "b:c", "d")
  {
  }

  datatype CacheOutcome = CacheOutcome(sql: string, entries: map<string, string>)

  /** The subquery SQL `query()` uses and the cache it leaves, given the SQL `left_query` would build. */
  function CachedLeftQuery(entries: map<string, string>, cid: string, regenerate: bool, built: string): CacheOutcome
  {
    if regenerate then CacheOutcome(built, entries)
    else if cid in entries then CacheOutcome(entries[cid], entries)
    else CacheOutcome(built, entries[cid := built])
  }

  /** Regeneration builds the SQL anew and leaves the cache alone. */
  lemma RegenerateBypassesCache(entries: map<string, string>, cid: string, built: string)
    ensures CachedLeftQuery(entries, cid, true, built) == CacheOutcome(built, entries)
  {
  }

  /** A miss stores exactly the SQL it uses under the key, and nothing else changes. */
  lemma MissStoresSql(entries: map<string, string>, cid: string, built: string)
    requires cid !in entries
    ensures var out := CachedLeftQuery(entries, cid, false, built);
      && out.sql == built
      && out.entries.Keys == entries.Keys + {cid}
      && out.entries[cid] == out.sql
      && forall k :: k in entries ==> out.entries[k] == entries[k]
  {
  }

  /** Once cached, later runs get the stored SQL, whatever `left_query` would now build. */
  lemma CachedIsStable(entries: map<string, string>, cid: string, built: string, later: string)
    ensures var first := CachedLeftQuery(entries, cid, false, built);
      CachedLeftQuery(first.entries, cid, false, later) == first
  {
  }

  /** After the key is deleted, the next run builds the SQL again and stores it. */
  lemma DeletedKeyRebuilds(entries: map<string, string>, cid: string, built: string)
    ensures var out := CachedLeftQuery(entries - {cid}, cid, false, built);
      out.sql == built && out.entries == (entries - {cid})[cid := built]
  {
  }

  /** The `views_data` cache bin. */
  class CacheBin {
    var entries: map<string, string>

    constructor (entries: map<string, string>)
      ensures this.entries == entries
    {
      this.entries := entries;
    }

    /** `get($cid)`, with `isset($cache->data)` read as the presence of an entry. */
    method Get(cid: string) returns (r: Option<string>)
      ensures r.Some? <==> cid in entries
      ensures r.Some? ==> r.value == entries[cid]
    {
      r := if cid in entries then Some(entries[cid]) else None;
    }

    method Set(cid: string, data: string)
      modifies this
      ensures entries == old(entries)[cid := data]
    {
      entries := entries[cid := data];
    }

    method Delete(cid: string)
      modifies this
      ensures entries == old(entries) - {cid}
    {
      entries := entries - {cid};
    }
  }

  // ---------------------------------------------------------------------
  // The join

  /** The join definition handed to the join plugin: the relationship's keys the model tracks. */
  datatype JoinDefinition = JoinDefinition(
    table: string,
    field: string,
    leftTable: string,
    leftField: string,
    joinType: Option<string>,
    leftQuery: string)

  /** A constructed join plugin, `adjusted` set. */
  datatype Join = Join(joinId: Value, definition: JoinDefinition, adjusted: bool)

  /** One `add_relationship($alias, $join, $base, $link)` call. */
  datatype Relationship = Relationship(alias: string, join: Join, base: string, link: string)

  /** The base field: the definition's own, or the base table's id when it has none. */
  function BaseFieldFor(def: RelationshipDefinition, tableBaseField: string): string
  {
    if EmptyText(def.baseField) then tableBaseField else def.baseField
  }

  function JoinTypeFor(def: RelationshipDefinition, o: RelationshipOptions): Option<string>
  {
    if o.required then Some("INNER") else def.joinType
  }

  function JoinIdFor(def: RelationshipDefinition): Value
  {
    if !Empty(def.joinId) then def.joinId else Str("subquery")
  }

  /** A required relationship joins INNER; otherwise the definition's type stands, and is INNER only if it says so. */
  lemma JoinTypeRule(def: RelationshipDefinition, o: RelationshipOptions)
    ensures o.required ==> JoinTypeFor(def, o) == Some("INNER")
    ensures !o.required ==> JoinTypeFor(def, o) == def.joinType
    ensures def.joinType != Some("INNER") ==> (JoinTypeFor(def, o) == Some("INNER") <==> o.required)
  {
  }

  /** The join plugin id is the definition's when non-empty, else `subquery`; it is never empty. */
  lemma JoinIdRule(def: RelationshipDefinition)
    ensures Empty(def.joinId) ==> JoinIdFor(def) == Str("subquery")
    ensures !Empty(def.joinId) ==> JoinIdFor(def) == def.joinId
    ensures !Empty(JoinIdFor(def))
  {
  }

  /** The view query's list of relationships. */
  class RelationshipQuery {
    var relationships: seq<Relationship>

    constructor ()
      ensures relationships == []
    {
      relationships := [];
    }

    /** Records the relationship; the alias is taken as requested. */
    method AddRelationship(alias: string, join: Join, base: string, link: string) returns (r: string)
      modifies this
      ensures relationships == old(relationships) + [Relationship(alias, join, base, link)]
      ensures r == alias
    {
      relationships := relationships + [Relationship(alias, join, base, link)];
      r := alias;
    }
  }

  // ---------------------------------------------------------------------
  // The handler

  class GroupwiseMaxHandler {
    var definition: RelationshipDefinition
    var options: RelationshipOptions
    /** Set by `left_query`; the suffix every rewriting pass appends. */
    var subqueryNamespace: string
    var viewName: string
    var currentDisplay: string
    /** The alias `ensure_my_table()` gave the handler's own table. */
    var tableAlias: string
    var field: string
    var table: string
    /** The relationship this one hangs off, passed on to `add_relationship`. */
    var relationship: string
    var alias: string
    const cache: CacheBin
    const query: RelationshipQuery

    constructor (definition: RelationshipDefinition, options: RelationshipOptions, viewName: string,
                 currentDisplay: string, tableAlias: string, field: string, table: string,
                 relationship: string, cache: CacheBin, query: RelationshipQuery)
      ensures this.definition == definition && this.options == options
      ensures this.viewName == viewName && this.currentDisplay == currentDisplay
      ensures this.tableAlias == tableAlias && this.field == field && this.table == table
      ensures this.relationship == relationship && this.alias == "" && this.subqueryNamespace == ""
      ensures this.cache == cache && this.query == query
    {
      this.definition := definition;
      this.options := options;
      this.viewName := viewName;
      this.currentDisplay := currentDisplay;
      this.tableAlias := tableAlias;
      this.field := field;
      this.table := table;
      this.relationship := relationship;
      this.cache := cache;
      this.query := query;
      alias := "";
      subqueryNamespace := "";
    }

    /** Unsets every selected field except the base id, over a snapshot of the keys. */
    method PruneFields(q: SelectQuery)
      modifies q
      ensures q.Parts() == old(q.Parts()).(fields := PrunedFields(old(q.fields), definition.field))
    {
      var keep := definition.field;
      ghost var original := q.fields;
      var keys := q.fields.Keys;
      while keys != {}
        invariant keys <= original.Keys
        invariant q.fields == map k | k in original && (k in keys || k == keep) :: original[k]
        invariant q.Parts() == old(q.Parts()).(fields := q.fields)
        decreases keys
      {
        var name :| name in keys;
        if name != keep {
          q.fields := q.fields - {name};
        }
        keys := keys - {name};
      }
      assert q.fields == PrunedFields(original, keep);
    }

    /** Appends the namespace to every table alias and namespaces the join conditions that are set. */
    method NamespaceTables(q: SelectQuery)
      modifies q
      ensures q.Parts() == old(q.Parts()).(tables := NamespacedTables(old(q.tables), subqueryNamespace))
    {
      ghost var original := q.tables;
      for i := 0 to |q.tables|
        invariant |q.tables| == |original|
        invariant forall j :: 0 <= j < |original| ==>
          q.tables[j] == if j < i then NamespacedTable(original[j], subqueryNamespace) else original[j]
        invariant q.Parts() == old(q.Parts()).(tables := q.tables)
      {
        var t := q.tables[i];
        t := t.(alias := t.alias + subqueryNamespace);
        if t.condition.Some? {
          t := t.(condition := Some(ConditionNamespace(t.condition.value, subqueryNamespace)));
        }
        q.tables := q.tables[i := t];
      }
      assert q.tables == NamespacedTables(original, subqueryNamespace);
    }

    /** Appends the namespace to the table and alias of every remaining field. */
    method NamespaceFields(q: SelectQuery)
      modifies q
      ensures q.Parts() == old(q.Parts()).(fields := NamespacedFields(old(q.fields), subqueryNamespace))
    {
      ghost var original := q.fields;
      var keys := q.fields.Keys;
      while keys != {}
        invariant keys <= original.Keys
        invariant q.fields == map k | k in original ::
          if k in keys then original[k] else NamespacedField(original[k], subqueryNamespace)
        invariant q.Parts() == old(q.Parts()).(fields := q.fields)
        decreases keys
      {
        var name :| name in keys;
        var f := q.fields[name];
        q.fields := q.fields[name := f.(table := f.table + subqueryNamespace, alias := f.alias + subqueryNamespace)];
        keys := keys - {name};
      }
      assert q.fields == NamespacedFields(original, subqueryNamespace);
    }

    /**
     * `alter_subquery_condition`: at every list position, a column name is
     * namespaced and a nested condition object is rewritten recursively;
     * named entries such as `#conjunction` and other fields stay as they are.
     */
    method AlterSubqueryCondition(conditions: ConditionGroup) returns (r: ConditionGroup)
      ensures r == NamespacedGroup(conditions, subqueryNamespace)
      decreases conditions
    {
      var items: seq<ConditionItem> := [];
      for i := 0 to |conditions.items|
        invariant |items| == i
        invariant forall j :: 0 <= j < i ==> items[j] == NamespacedItem(conditions.items[j], subqueryNamespace)
      {
        var item := conditions.items[i];
        if item.key.Position? && item.condition.Clause? {
          match item.condition.field
          case Column(name) =>
            item := item.(condition := item.condition.(field := Column(ConditionNamespace(name, subqueryNamespace))));
          case Subgroup(sub) =>
            var sub' := AlterSubqueryCondition(sub);
            item := item.(condition := item.condition.(field := Subgroup(sub')));
          case OtherField =>
        }
        items := items + [item];
      }
      r := ConditionGroup(items);
    }

    /**
     * Renames every ORDER BY key, iterating over a snapshot of the array while
     * writing to the live one: the direction goes under the new key, then the
     * old key is unset.
     */
    method NamespaceOrders(q: SelectQuery, fixed: Option<SortRef>)
      modifies q
      ensures q.Parts() == old(q.Parts()).(orders := RenameOrders(old(q.orders), old(q.orders), subqueryNamespace, fixed))
    {
      var snapshot := q.orders;
      for i := 0 to |snapshot|
        invariant RenameOrders(snapshot[i..], q.orders, subqueryNamespace, fixed)
          == RenameOrders(snapshot, snapshot, subqueryNamespace, fixed)
        invariant q.Parts() == old(q.Parts()).(orders := q.orders)
      {
        var order := snapshot[i];
        var sort := if fixed.Some? then fixed.value else SplitSortKey(order.key);
        assert snapshot[i..][0] == order && snapshot[i..][1..] == snapshot[i + 1..];
        q.orders := Put(q.orders, sort.table + subqueryNamespace + "." + sort.field, order.val);
        q.orders := Unset(q.orders, order.key);
      }
    }

    /** `left_query($options)`: rewrites the scratch view's query and returns its correlated SQL. */
    method LeftQuery(o: RelationshipOptions, build: QueryBuilder, toSql: Serialiser) returns (sql: string)
      modifies this`subqueryNamespace
      ensures subqueryNamespace == SubqueryNamespace(o.subqueryNamespace)
      ensures sql == LeftQuerySql(definition, o, build, toSql)
    {
      var fixed := if !EmptyText(o.subqueryView) then None else Some(SplitSortKey(o.subquerySort));
      var tempNamespace := TempViewNamespace(o.subqueryNamespace);
      subqueryNamespace := SubqueryNamespace(o.subqueryNamespace);
      var subquery := new SelectQuery(build(o, tempNamespace));
      PruneFields(subquery);
      NamespaceTables(subquery);
      NamespaceFields(subquery);
      var where := AlterSubqueryCondition(subquery.where);
      subquery.where := where;
      NamespaceOrders(subquery, fixed);
      subquery.Range(0, 1);
      sql := SubstituteOuterField(toSql(subquery.Parts()), definition.outerField);
    }

    /** The subquery SQL `query()` joins: built anew, or taken from or stored into the cache. */
    method SubquerySql(build: QueryBuilder, toSql: Serialiser) returns (leftQuery: string)
      modifies this`subqueryNamespace, cache
      ensures var out := CachedLeftQuery(old(cache.entries), CacheId(viewName, currentDisplay, options.id),
                                         options.subqueryRegenerate, LeftQuerySql(definition, options, build, toSql));
        leftQuery == out.sql && cache.entries == out.entries
      ensures subqueryNamespace ==
        if options.subqueryRegenerate || CacheId(viewName, currentDisplay, options.id) !in old(cache.entries)
        then SubqueryNamespace(options.subqueryNamespace) else old(subqueryNamespace)
    {
      if options.subqueryRegenerate {
        leftQuery := LeftQuery(options, build, toSql);
      } else {
        var cid := CacheId(viewName, currentDisplay, options.id);
        var cached := cache.Get(cid);
        if cached.Some? {
          leftQuery := cached.value;
        } else {
          leftQuery := LeftQuery(options, build, toSql);
          cache.Set(cid, leftQuery);
        }
      }
    }

    /**
     * `query()`: picks the base field and join type, takes the subquery SQL
     * from the cache or builds it, and adds the relationship through the join.
     */
    method Query(tableBaseField: string, build: QueryBuilder, toSql: Serialiser)
      modifies this`subqueryNamespace, this`alias, cache, query
      ensures var cid := CacheId(viewName, currentDisplay, options.id);
        var out := CachedLeftQuery(old(cache.entries), cid, options.subqueryRegenerate,
                                   LeftQuerySql(definition, options, build, toSql));
        && cache.entries == out.entries
        && subqueryNamespace == (if options.subqueryRegenerate || cid !in old(cache.entries)
                                 then SubqueryNamespace(options.subqueryNamespace) else old(subqueryNamespace))
        && alias == definition.base + "_" + table
        && query.relationships == old(query.relationships) + [Relationship(
             alias,
             Join(JoinIdFor(definition),
                  JoinDefinition(definition.base, BaseFieldFor(definition, tableBaseField), tableAlias, field,
                                 JoinTypeFor(definition, options), out.sql),
                  true),
             definition.base,
             relationship)]
    {
      var baseField := if EmptyText(definition.baseField) then tableBaseField else definition.baseField;
      var joinType := definition.joinType;
      if options.required {
        joinType := Some("INNER");
      }
      var leftQuery := SubquerySql(build, toSql);
      var id := if !Empty(definition.joinId) then definition.joinId else Str("subquery");
      var join := Join(id, JoinDefinition(definition.base, baseField, tableAlias, field, joinType, leftQuery), true);
      var relationshipAlias := definition.base + "_" + table;
      alias := query.AddRelationship(relationshipAlias, join, definition.base, relationship);
    }

    /** `options_form_submit`: drops the cached subquery under the key `query()` reads and writes. */
    method OptionsFormSubmit()
      modifies cache
      ensures cache.entries == old(cache.entries) - {CacheId(viewName, currentDisplay, options.id)}
    {
      cache.Delete(CacheId(viewName, currentDisplay, options.id));
    }
  }
}
