/**
 * The current-user filter: a boolean filter on a user id column that keeps
 * the rows of the logged-in user, or, with a false value, the rows of
 * everybody else (and, if asked, the rows with no user). The query compares
 * the column with a token the host later replaces by the current user's id.
 */
module CurrentUserFilter {
  import opened PhpValues

  /** The token the host's query alteration replaces by the current user's id. */
  const CurrentUserToken: string := "***CURRENT_USER***"

  /** A condition added to a condition object. */
  datatype DbCondition = Compare(field: string, value: string, operator: string) | IsNull(field: string)

  /** A condition object: its conjunction and its conditions in order. */
  datatype DbGroup = DbGroup(conjunction: string, conditions: seq<DbCondition>)

  /** `db_or()`: a condition object whose conditions are OR-ed. */
  class DbOr {
    var conditions: seq<DbCondition>

    constructor ()
      ensures conditions == []
    {
      conditions := [];
    }

    function Group(): DbGroup
      reads this
    {
      DbGroup("OR", conditions)
    }

    /** `condition($field, $value, $operator)`. */
    method Condition(field: string, value: string, operator: string)
      modifies this
      ensures conditions == old(conditions) + [Compare(field, value, operator)]
    {
      conditions := conditions + [Compare(field, value, operator)];
    }

    /** `isNull($field)`. */
    method IsNullCondition(field: string)
      modifies this
      ensures conditions == old(conditions) + [IsNull(field)]
    {
      conditions := conditions + [IsNull(field)];
    }
  }

  /** What the view query is asked to do, in order. */
  datatype QueryEvent = EnsureTable(table: string, relationship: string) | AddWhere(group: int, clause: DbGroup)

  /** The view query, as the calls a filter makes on it. */
  class ViewQuery {
    var events: seq<QueryEvent>

    constructor ()
      ensures events == []
    {
      events := [];
    }

    method EnsureTableCall(table: string, relationship: string)
      modifies this
      ensures events == old(events) + [EnsureTable(table, relationship)]
    {
      events := events + [EnsureTable(table, relationship)];
    }

    /** `add_where($group, $clause)`. */
    method AddWhereCall(group: int, clause: DbGroup)
      modifies this
      ensures events == old(events) + [AddWhere(group, clause)]
    {
      events := events + [AddWhere(group, clause)];
    }
  }

  /** `table_alias . '.' . real_field . ' '`: the column reference, trailing space included. */
  function FieldReference(tableAlias: string, realField: string): (r: string)
    ensures |r| == |tableAlias| + |realField| + 2
    ensures r[..|tableAlias|] == tableAlias && r[|tableAlias|] == '.'
    ensures r[|tableAlias| + 1..|r| - 1] == realField && r[|r| - 1] == ' '
  {
    tableAlias + "." + realField + " "
  }

  /** The OR group `query()` adds for a filter value and the accept-NULL setting. */
  function CurrentUserGroup(field: string, value: Value, acceptNull: bool): (r: DbGroup)
    ensures r.conjunction == "OR" && 1 <= |r.conditions| <= 2
    ensures forall i :: 0 <= i < |r.conditions| ==> r.conditions[i].field == field
  {
    if Empty(value) then
      DbGroup("OR", [Compare(field, CurrentUserToken, "<>")] + if acceptNull then [IsNull(field)] else [])
    else
      DbGroup("OR", [Compare(field, CurrentUserToken, "=")])
  }

  /** With an empty value: the inequality first, then an IS NULL test exactly when NULLs are accepted. */
  lemma EmptyValueGroup(field: string, value: Value, acceptNull: bool)
    requires Empty(value)
    ensures var g := CurrentUserGroup(field, value, acceptNull);
      && g.conjunction == "OR"
      && |g.conditions| == (if acceptNull then 2 else 1)
      && g.conditions[0] == Compare(field, CurrentUserToken, "<>")
      && (IsNull(field) in g.conditions <==> acceptNull)
  {
  }

  /** With a non-empty value: the single equality, whatever the accept-NULL setting. */
  lemma NonEmptyValueGroup(field: string, value: Value, acceptNull: bool)
    requires !Empty(value)
    ensures CurrentUserGroup(field, value, acceptNull) == DbGroup("OR", [Compare(field, CurrentUserToken, "=")])
    ensures CurrentUserGroup(field, value, acceptNull) == CurrentUserGroup(field, value, !acceptNull)
  {
  }

  /** SQL truth of one condition for a row whose column holds `column` (None for NULL), the token standing for `user`. */
  predicate Holds(c: DbCondition, column: Option<string>, user: string)
  {
    match c
    case Compare(_, v, op) =>
      var target := if v == CurrentUserToken then user else v;
      column.Some? && ((op == "=" && column.value == target) || (op == "<>" && column.value != target))
    case IsNull(_) => column.None?
  }

  predicate GroupHolds(g: DbGroup, column: Option<string>, user: string)
  {
    exists i :: 0 <= i < |g.conditions| && Holds(g.conditions[i], column, user)
  }

  /**
   * The rows the filter keeps: the current user's with a non-empty value;
   * otherwise everybody else's, and the NULL rows too when NULLs are accepted.
   */
  lemma {:induction false} FilterKeeps(field: string, value: Value, acceptNull: bool, column: Option<string>, user: string)
    ensures GroupHolds(CurrentUserGroup(field, value, acceptNull), column, user) <==>
      if !Empty(value) then column == Some(user)
      else (column.Some? && column.value != user) || (acceptNull && column.None?)
  {
    var g := CurrentUserGroup(field, value, acceptNull);
    if !Empty(value) {
      assert g.conditions == [Compare(field, CurrentUserToken, "=")];
      if column == Some(user) {
        assert Holds(g.conditions[0], column, user);
      }
    } else {
      if column.Some? && column.value != user {
        assert Holds(g.conditions[0], column, user);
      }
      if acceptNull && column.None? {
        assert Holds(g.conditions[1], column, user);
      }
      if GroupHolds(g, column, user) {
        var i :| 0 <= i < |g.conditions| && Holds(g.conditions[i], column, user);
        if i == 1 {
          assert acceptNull && g.conditions[1] == IsNull(field);
        }
      }
    }
  }

  /** The current-user filter handler. */
  class Current {
    var table: string
    var relationship: string
    var tableAlias: string
    var realField: string
    var value: Value
    var acceptNull: bool
    /** `options['group']`: the filter group the condition joins. */
    var group: int
    /** The label of the TRUE value. */
    var valueValue: string
    const query: ViewQuery

    /** `construct()` labels the TRUE value. */
    constructor (table: string, relationship: string, tableAlias: string, realField: string,
                 value: Value, acceptNull: bool, group: int, query: ViewQuery)
      ensures this.table == table && this.relationship == relationship
      ensures this.tableAlias == tableAlias && this.realField == realField
      ensures this.value == value && this.acceptNull == acceptNull && this.group == group
      ensures this.query == query && valueValue == "Is the logged in user"
    {
      this.table := table;
      this.relationship := relationship;
      this.tableAlias := tableAlias;
      this.realField := realField;
      this.value := value;
      this.acceptNull := acceptNull;
      this.group := group;
      this.query := query;
      valueValue := "Is the logged in user";
    }

    /** `ensure_my_table()` of the base handler: asks the query for the handler's table. */
    method EnsureMyTable()
      modifies query
      ensures query.events == old(query.events) + [EnsureTable(table, relationship)]
    {
      query.EnsureTableCall(table, relationship);
    }

    /** `query()`: ensures the table, then adds one OR group under the filter's group. */
    method Query()
      modifies query
      ensures query.events == old(query.events) + [
        EnsureTable(table, relationship),
        AddWhere(group, CurrentUserGroup(FieldReference(tableAlias, realField), value, acceptNull))]
    {
      ghost var before := query.events;
      EnsureMyTable();
      var field := tableAlias + "." + realField + " ";
      var or := new DbOr();
      if Empty(value) {
        or.Condition(field, CurrentUserToken, "<>");
        if acceptNull {
          or.IsNullCondition(field);
        }
      } else {
        or.Condition(field, CurrentUserToken, "=");
      }
      assert or.Group() == CurrentUserGroup(FieldReference(tableAlias, realField), value, acceptNull);
      query.AddWhereCall(group, or.Group());
      assert before + [EnsureTable(table, relationship)] + [AddWhere(group, or.Group())]
        == before + [EnsureTable(table, relationship), AddWhere(group, or.Group())];
    }
  }
}
