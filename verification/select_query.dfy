/**
 * The pieces of a built SELECT query that the groupwise-maximum relationship
 * rewrites: selected fields, joined tables, the WHERE condition tree, the
 * ORDER BY list and the row range. The query object belongs to the host
 * database layer; only the parts the rewrite touches are modelled.
 */
module SelectQueryModel {
  import opened PhpValues

  /** A selected field: `$fields[$name] = ['table' => ..., 'field' => ..., 'alias' => ...]`. */
  datatype FieldEntry = FieldEntry(table: string, field: string, alias: string)

  /** A joined table; `condition` is absent for the base table of the query. */
  datatype TableEntry = TableEntry(joinType: string, table: string, alias: string, condition: Option<string>)

  /** A key of a condition array: a list position, or a named entry such as `#conjunction`. */
  datatype ConditionKey = Position(n: nat) | Name(name: string)

  /** What a condition's `field` holds: a column reference, a nested condition object, or anything else. */
  datatype ConditionField = Column(name: string) | Subgroup(group: ConditionGroup) | OtherField

  /** An entry of a condition array: a condition, or a plain setting such as the conjunction. */
  datatype Condition = Clause(field: ConditionField, value: string, operator: string) | Setting(text: string)

  datatype ConditionItem = ConditionItem(key: ConditionKey, condition: Condition)

  /** A condition array, in its PHP order. */
  datatype ConditionGroup = ConditionGroup(items: seq<ConditionItem>)

  datatype RowRange = RowRange(start: int, length: int)

  /** A snapshot of the query's rewritable state; `orders` maps an order key to its direction. */
  datatype SelectParts = SelectParts(
    fields: map<string, FieldEntry>,
    tables: seq<TableEntry>,
    where: ConditionGroup,
    orders: seq<Entry<string>>,
    range: Option<RowRange>)

  /** The query object; its arrays are handed out by reference and changed in place. */
  class SelectQuery {
    var fields: map<string, FieldEntry>
    var tables: seq<TableEntry>
    var where: ConditionGroup
    var orders: seq<Entry<string>>
    var range: Option<RowRange>

    function Parts(): SelectParts
      reads this
    {
      SelectParts(fields, tables, where, orders, range)
    }

    constructor (p: SelectParts)
      ensures Parts() == p
    {
      fields, tables, where, orders, range := p.fields, p.tables, p.where, p.orders, p.range;
    }

    /** `range($start, $length)`: LIMIT `$length` OFFSET `$start`. */
    method Range(start: int, length: int)
      modifies this
      ensures Parts() == old(Parts()).(range := Some(RowRange(start, length)))
    {
      range := Some(RowRange(start, length));
    }
  }
}
