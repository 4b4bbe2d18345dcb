/**
 * What the groupwise-maximum relationship does to the query its scratch view
 * built, stated as functions on values: the namespace choice, the dot
 * rewrite of `condition_namespace`, the field, table, condition and order
 * passes, and the textual substitution of the outer field.
 */
module GroupwiseMaxRewrite {
  import opened PhpValues
  import opened StringReplace
  import opened SelectQueryModel

  // ---------------------------------------------------------------------
  // Namespace choice

  /** The suffix the rewrite appends: `'_' . option`, or `INNER` (no underscore) without one. */
  function SubqueryNamespace(option: string): (ns: string)
  {
    if !EmptyText(option) then "_" + option else "INNER"
  }

  /** The namespace given to the scratch view: `'_' . option`, or `_INNER`. */
  function TempViewNamespace(option: string): (ns: string)
  {
    if !EmptyText(option) then "_" + option else "_INNER"
  }

  lemma NamespaceChoice(option: string)
    ensures !EmptyText(option) ==> SubqueryNamespace(option) == TempViewNamespace(option) == "_" + option
    ensures EmptyText(option) ==> SubqueryNamespace(option) == "INNER" && TempViewNamespace(option) == "_INNER"
    ensures SubqueryNamespace("0") == "INNER"
    ensures "_" + SubqueryNamespace(option) == TempViewNamespace(option) <==> EmptyText(option)
  {
    if !EmptyText(option) {
      assert ("_" + SubqueryNamespace(option))[1] == '_';
      assert TempViewNamespace(option)[1] == option[0];
      assert option[0] != '_' ==> "_" + SubqueryNamespace(option) != TempViewNamespace(option);
      assert |"_" + SubqueryNamespace(option)| != |TempViewNamespace(option)|;
    }
  }

  // ---------------------------------------------------------------------
  // condition_namespace

  /** `str_replace('.', ns . '.', s)`: every dot, not only a table qualifier, gets the suffix before it. */
  function ConditionNamespace(s: string, ns: string): (r: string)
  {
    ReplaceAll(s, ".", ns + ".")
  }

  lemma NoDotNoChange(s: string, ns: string)
    requires '.' !in s
    ensures ConditionNamespace(s, ns) == s
  {
    ReplaceCharAbsent(s, '.', ns + ".");
  }

  /** `'foo.bar'` becomes `'foo' . ns . '.bar'`. */
  lemma QualifiedName(table: string, column: string, ns: string)
    requires '.' !in table && '.' !in column
    ensures ConditionNamespace(table + "." + column, ns) == table + ns + "." + column
  {
    ReplaceCharJoin(table, column, '.', ns + ".");
    assert table + (ns + ".") + column == table + ns + "." + column;
  }

  /** The text grows by `|ns|` for every dot it holds. */
  lemma NamespaceLength(s: string, ns: string)
    ensures |ConditionNamespace(s, ns)| == |s| + |ns| * Count(s, '.')
  {
    ReplaceCharLength(s, '.', ns + ".");
  }

  /** Every dot of `r` sits right after a copy of `ns`. */
  predicate DotsAfter(r: string, ns: string)
  {
    forall p :: 0 <= p < |r| && r[p] == '.' ==> p >= |ns| && r[p - |ns|..p] == ns
  }

  /** Every dot of the result sits right after a copy of the namespace. */
  lemma {:induction false} DotsFollowNamespace(s: string, ns: string)
    requires '.' !in ns
    ensures DotsAfter(ConditionNamespace(s, ns), ns)
  {
    if s != [] {
      DotsFollowNamespace(s[1..], ns);
      var head := ReplacedHead(s, ns);
      HeadDots(s[0], ns, head);
      DotsAfterConcat(head, ConditionNamespace(s[1..], ns), ns);
    }
  }

  /** `condition_namespace` works one character at a time. */
  lemma ReplacedHead(s: string, ns: string) returns (head: string)
    requires s != []
    ensures head == if s[0] == '.' then ns + "." else [s[0]]
    ensures ConditionNamespace(s, ns) == head + ConditionNamespace(s[1..], ns)
  {
    head := if s[0] == '.' then ns + "." else [s[0]];
    assert s[..1] == [s[0]];
  }

  /** Within the replacement of one character, every dot is the one after the namespace. */
  lemma HeadDots(c: char, ns: string, head: string)
    requires '.' !in ns
    requires head == if c == '.' then ns + "." else [c]
    ensures DotsAfter(head, ns)
  {
    forall p | 0 <= p < |head| && head[p] == '.' ensures p >= |ns| && head[p - |ns|..p] == ns {
      if c == '.' {
        assert forall i :: 0 <= i < |ns| ==> head[i] == ns[i];
        assert head[..|ns|] == ns;
      }
    }
  }

  lemma DotsAfterConcat(a: string, b: string, ns: string)
    requires DotsAfter(a, ns) && DotsAfter(b, ns)
    ensures DotsAfter(a + b, ns)
  {
    var r := a + b;
    forall p | 0 <= p < |r| && r[p] == '.' ensures p >= |ns| && r[p - |ns|..p] == ns {
      if p < |a| {
        assert a[p] == r[p];
        assert r[p - |ns|..p] == a[p - |ns|..p];
      } else {
        var q := p - |a|;
        assert b[q] == r[p];
        assert r[p - |ns|..p] == b[q - |ns|..q];
      }
    }
  }

  /** Removing the namespace in front of every dot undoes `condition_namespace`, for a namespace without dots. */
  lemma {:induction false} NamespaceRoundTrip(s: string, ns: string)
    requires '.' !in ns
    ensures ReplaceAll(ConditionNamespace(s, ns), ns + ".", ".") == s
  {
    var pat := ns + ".";
    if s != [] {
      var r := ConditionNamespace(s, ns);
      var t := ConditionNamespace(s[1..], ns);
      NamespaceRoundTrip(s[1..], ns);
      assert s[..1] == [s[0]];
      if s[0] == '.' {
        assert r == pat + t;
        assert r[..|pat|] == pat;
        assert r[|pat|..] == t;
      } else {
        assert r == [s[0]] + t;
        if |r| < |pat| {
          DotsFollowNamespace(s[1..], ns);
          assert ReplaceAll(t, pat, ".") == t;
        } else {
          assert r[..|pat|] != pat by {
            if |ns| == 0 {
              assert r[0] == s[0];
            } else {
              DotsFollowNamespace(s[1..], ns);
              assert r[|ns|] == t[|ns| - 1];
              assert t[|ns| - 1] != '.';
              assert r[..|pat|][|ns|] == r[|ns|];
            }
          }
          assert r[1..] == t;
        }
      }
    }
  }

  // ---------------------------------------------------------------------
  // Selected fields

  /** The field pass keeps only the entry whose key is the relationship's base id. */
  function PrunedFields(fields: map<string, FieldEntry>, keep: string): (r: map<string, FieldEntry>)
    ensures r.Keys <= {keep} && |r| <= 1
    ensures keep in r <==> keep in fields
    ensures keep in r ==> r[keep] == fields[keep]
  {
    if keep in fields then map[keep := fields[keep]] else map[]
  }

  function NamespacedField(f: FieldEntry, ns: string): FieldEntry
  {
    f.(table := f.table + ns, alias := f.alias + ns)
  }

  function NamespacedFields(fields: map<string, FieldEntry>, ns: string): (r: map<string, FieldEntry>)
    ensures r.Keys == fields.Keys
  {
    map k | k in fields :: NamespacedField(fields[k], ns)
  }

  // ---------------------------------------------------------------------
  // Tables

  function NamespacedTable(t: TableEntry, ns: string): TableEntry
  {
    t.(alias := t.alias + ns,
       condition := if t.condition.Some? then Some(ConditionNamespace(t.condition.value, ns)) else None)
  }

  function NamespacedTables(tables: seq<TableEntry>, ns: string): (r: seq<TableEntry>)
    ensures |r| == |tables|
  {
    seq(|tables|, i requires 0 <= i < |tables| => NamespacedTable(tables[i], ns))
  }

  // ---------------------------------------------------------------------
  // Condition tree

  /** `alter_subquery_condition` on one entry: only list positions are rewritten. */
  function NamespacedItem(item: ConditionItem, ns: string): (r: ConditionItem)
    ensures r.key == item.key
    decreases item
  {
    if !item.key.Position? || !item.condition.Clause? then item
    else
      match item.condition.field
      case Column(name) => item.(condition := item.condition.(field := Column(ConditionNamespace(name, ns))))
      case Subgroup(g) => item.(condition := item.condition.(field := Subgroup(NamespacedGroup(g, ns))))
      case OtherField => item
  }

  function NamespacedGroup(g: ConditionGroup, ns: string): (r: ConditionGroup)
    ensures |r.items| == |g.items|
    decreases g
  {
    ConditionGroup(seq(|g.items|, i requires 0 <= i < |g.items| => NamespacedItem(g.items[i], ns)))
  }

  /** The column references the rewrite reaches, left to right, descending into subgroups. */
  function ColumnsFrom(g: ConditionGroup, i: nat): seq<string>
    decreases g, |g.items| - i
  {
    if i >= |g.items| then []
    else
      var item := g.items[i];
      var here :=
        if !item.key.Position? || !item.condition.Clause? then []
        else match item.condition.field
          case Column(name) => [name]
          case Subgroup(sub) => ColumnsFrom(sub, 0)
          case OtherField => [];
      here + ColumnsFrom(g, i + 1)
  }

  function Columns(g: ConditionGroup): seq<string>
  {
    ColumnsFrom(g, 0)
  }

  /** The tree with every reachable column reference blanked: everything the rewrite must keep. */
  function Skeleton(g: ConditionGroup): (r: ConditionGroup)
    decreases g
  {
    ConditionGroup(seq(|g.items|, i requires 0 <= i < |g.items| => SkeletonItem(g.items[i])))
  }

  function SkeletonItem(item: ConditionItem): ConditionItem
    decreases item
  {
    if !item.key.Position? || !item.condition.Clause? then item
    else
      match item.condition.field
      case Column(_) => item.(condition := item.condition.(field := Column("")))
      case Subgroup(g) => item.(condition := item.condition.(field := Subgroup(Skeleton(g))))
      case OtherField => item
  }

  /** `condition_namespace` applied to each name, in order. */
  function NamespacedNames(names: seq<string>, ns: string): (r: seq<string>)
    ensures |r| == |names|
    ensures forall i :: 0 <= i < |names| ==> r[i] == ConditionNamespace(names[i], ns)
  {
    if names == [] then [] else [ConditionNamespace(names[0], ns)] + NamespacedNames(names[1..], ns)
  }

  lemma {:induction false} NamespacedNamesAppend(a: seq<string>, b: seq<string>, ns: string)
    ensures NamespacedNames(a + b, ns) == NamespacedNames(a, ns) + NamespacedNames(b, ns)
  {
    if a == [] {
      assert a + b == b;
    } else {
      assert (a + b)[1..] == a[1..] + b;
      NamespacedNamesAppend(a[1..], b, ns);
    }
  }

  /** The rewrite namespaces exactly the column references it reaches, in order. */
  lemma {:induction false} ColumnsNamespacedFrom(g: ConditionGroup, i: nat, ns: string)
    ensures ColumnsFrom(NamespacedGroup(g, ns), i) == NamespacedNames(ColumnsFrom(g, i), ns)
    decreases g, |g.items| - i
  {
    var h := NamespacedGroup(g, ns);
    if i < |g.items| {
      var item := g.items[i];
      var item' := h.items[i];
      assert item' == NamespacedItem(item, ns);
      ColumnsNamespacedFrom(g, i + 1, ns);
      if item.key.Position? && item.condition.Clause? {
        match item.condition.field
        case Column(name) =>
          assert ColumnsFrom(h, i) == [ConditionNamespace(name, ns)] + ColumnsFrom(h, i + 1);
          NamespacedNamesAppend([name], ColumnsFrom(g, i + 1), ns);
        case Subgroup(sub) =>
          ColumnsNamespacedFrom(sub, 0, ns);
          assert ColumnsFrom(h, i) == ColumnsFrom(NamespacedGroup(sub, ns), 0) + ColumnsFrom(h, i + 1);
          NamespacedNamesAppend(ColumnsFrom(sub, 0), ColumnsFrom(g, i + 1), ns);
        case OtherField =>
          assert item' == item;
          assert ColumnsFrom(h, i) == ColumnsFrom(h, i + 1);
          assert ColumnsFrom(g, i) == ColumnsFrom(g, i + 1);
      } else {
        assert item' == item;
        assert ColumnsFrom(h, i) == ColumnsFrom(h, i + 1);
        assert ColumnsFrom(g, i) == ColumnsFrom(g, i + 1);
      }
    }
  }

  lemma ColumnsNamespaced(g: ConditionGroup, ns: string)
    ensures Columns(NamespacedGroup(g, ns)) == NamespacedNames(Columns(g), ns)
  {
    ColumnsNamespacedFrom(g, 0, ns);
  }

  /** Keys, conjunctions, operators, values and non-column fields all come through unchanged. */
  lemma {:induction false} SkeletonKept(g: ConditionGroup, ns: string)
    ensures Skeleton(NamespacedGroup(g, ns)) == Skeleton(g)
    decreases g
  {
    var h := NamespacedGroup(g, ns);
    forall i | 0 <= i < |g.items| ensures SkeletonItem(h.items[i]) == SkeletonItem(g.items[i]) {
      var item := g.items[i];
      if item.key.Position? && item.condition.Clause? && item.condition.field.Subgroup? {
        SkeletonKept(item.condition.field.group, ns);
      }
    }
  }

  // ---------------------------------------------------------------------
  // ORDER BY keys

  /** A sort reference `table.field`. */
  datatype SortRef = SortRef(table: string, field: string)

  /** The text before the first dot. */
  function BeforeDot(s: string): (r: string)
    ensures |r| <= |s| && r == s[..|r|] && '.' !in r
    ensures |r| < |s| ==> s[|r|] == '.'
  {
    if s == [] || s[0] == '.' then [] else [s[0]] + BeforeDot(s[1..])
  }

  /** `list($table, $field) = explode('.', $s)`: a missing second piece reads as an empty string. */
  function SplitSortKey(s: string): (r: SortRef)
    ensures '.' !in r.table && '.' !in r.field
    ensures |r.table| <= |s| && r.table == s[..|r.table|]
    ensures r.field != [] ==> |r.table| + 1 + |r.field| <= |s| && s[..|r.table| + 1 + |r.field|] == r.table + "." + r.field
  {
    var t := BeforeDot(s);
    if |t| == |s| then SortRef(t, "")
    else
      var f := BeforeDot(s[|t| + 1..]);
      assert s[..|t| + 1 + |f|] == s[..|t|] + [s[|t|]] + s[|t| + 1..][..|f|];
      SortRef(t, f)
  }

  lemma {:induction false} BeforeDotPrefix(a: string, rest: string)
    requires '.' !in a
    ensures BeforeDot(a + rest) == a + BeforeDot(rest)
  {
    if a != [] {
      assert (a + rest)[1..] == a[1..] + rest;
      BeforeDotPrefix(a[1..], rest);
    } else {
      assert a + rest == rest;
    }
  }

  /** The part before the first dot of `a.rest`, for a dot-free `a`, is `a`. */
  lemma BeforeDotAtDot(a: string, rest: string)
    requires '.' !in a
    ensures BeforeDot(a + "." + rest) == a
  {
    BeforeDotPrefix(a, "." + rest);
    assert a + "." + rest == a + ("." + rest);
    assert ("." + rest)[0] == '.';
    assert a + [] == a;
  }

  lemma SplitAtFirstDot(table: string, rest: string)
    requires '.' !in table
    ensures SplitSortKey(table + "." + rest) == SortRef(table, BeforeDot(rest))
  {
    BeforeDotAtDot(table, rest);
    var s := table + "." + rest;
    assert s[|table| + 1..] == rest;
  }

  lemma BeforeDotOfField(field: string, rest: string)
    requires '.' !in field
    ensures BeforeDot(field) == field
    ensures BeforeDot(field + "." + rest) == field
  {
    BeforeDotPrefix(field, "");
    assert field + "" == field;
    BeforeDotAtDot(field, rest);
  }

  lemma SplitQualifiedKey(table: string, field: string, rest: string)
    requires '.' !in table && '.' !in field
    ensures SplitSortKey(table + "." + field) == SortRef(table, field)
    ensures SplitSortKey(table + "." + field + "." + rest) == SortRef(table, field)
  {
    BeforeDotOfField(field, rest);
    SplitAtFirstDot(table, field);
    SplitAtFirstDot(table, field + "." + rest);
    assert table + "." + field + "." + rest == table + "." + (field + "." + rest);
  }

  /** The new key `sort_table . ns . '.' . sort_field`. */
  function OrderKey(sort: SortRef, ns: string): string
  {
    sort.table + ns + "." + sort.field
  }

  /** The sort an order key is renamed after: the option's when given, else the key's own pieces. */
  function SortOf(key: string, fixed: Option<SortRef>): SortRef
  {
    if fixed.Some? then fixed.value else SplitSortKey(key)
  }

  function Renamed(e: Entry<string>, ns: string, fixed: Option<SortRef>): Entry<string>
  {
    Entry(OrderKey(SortOf(e.key, fixed), ns), e.val)
  }

  /**
   * The order pass: for each entry of the snapshot `pending`, in order, write its
   * direction under the new key, then unset the old key, on the live array `current`.
   */
  function RenameOrders(pending: seq<Entry<string>>, current: seq<Entry<string>>, ns: string, fixed: Option<SortRef>): seq<Entry<string>>
    decreases |pending|
  {
    if pending == [] then current
    else RenameOrders(pending[1..], RenameOne(current, pending[0], ns, fixed), ns, fixed)
  }

  /** One iteration: `$orders[new key] = $order; unset($orders[$order_key]);`. */
  function RenameOne(current: seq<Entry<string>>, e: Entry<string>, ns: string, fixed: Option<SortRef>): seq<Entry<string>>
  {
    Unset(Put(current, OrderKey(SortOf(e.key, fixed), ns), e.val), e.key)
  }

  /** For a key of the form `table.field`, the order rename is the dot rewrite. */
  lemma OrderKeyIsConditionNamespace(table: string, field: string, ns: string)
    requires '.' !in table && '.' !in field
    ensures OrderKey(SplitSortKey(table + "." + field), ns) == ConditionNamespace(table + "." + field, ns)
  {
    SplitQualifiedKey(table, field, "");
    QualifiedName(table, field, ns);
  }

  ghost predicate RenamedFrom(src: seq<Entry<string>>, e: Entry<string>, ns: string, fixed: Option<SortRef>)
  {
    exists x :: x in src && e == Renamed(x, ns, fixed)
  }

  lemma {:induction false} RenameOrdersOnlyRenamedFrom(pending: seq<Entry<string>>, current: seq<Entry<string>>, done: seq<Entry<string>>, ns: string, fixed: Option<SortRef>)
    requires forall e :: e in current ==> e in pending || RenamedFrom(done, e, ns, fixed)
    ensures forall e :: e in RenameOrders(pending, current, ns, fixed) ==> RenamedFrom(done + pending, e, ns, fixed)
    decreases |pending|
  {
    if pending == [] {
      assert done + pending == done;
    } else {
      var x := pending[0];
      var put := Put(current, OrderKey(SortOf(x.key, fixed), ns), x.val);
      var next := RenameOne(current, x, ns, fixed);
      assert next == Unset(put, x.key);
      forall e | e in next ensures e in pending[1..] || RenamedFrom(done + [x], e, ns, fixed) {
        assert e in put && e.key != x.key;
        if e == Renamed(x, ns, fixed) {
          assert x in done + [x];
        } else {
          assert e in current;
          if e in pending {
            assert e != x;
            var j :| 0 <= j < |pending| && pending[j] == e;
            assert pending[1..][j - 1] == e;
          } else {
            var y :| y in done && e == Renamed(y, ns, fixed);
            assert y in done + [x];
          }
        }
      }
      RenameOrdersOnlyRenamedFrom(pending[1..], next, done + [x], ns, fixed);
      assert done + [x] + pending[1..] == done + pending;
    }
  }

  /** Every ORDER BY entry left is an original entry under its new key, with its direction. */
  lemma RenameOrdersOnlyRenamed(orders: seq<Entry<string>>, ns: string, fixed: Option<SortRef>)
    ensures forall e :: e in RenameOrders(orders, orders, ns, fixed) ==>
      exists x :: x in orders && e == Entry(OrderKey(SortOf(x.key, fixed), ns), x.val)
  {
    RenameOrdersOnlyRenamedFrom(orders, orders, [], ns, fixed);
    assert [] + orders == orders;
  }

  function RenamedAll(s: seq<Entry<string>>, ns: string, fixed: Option<SortRef>): (r: seq<Entry<string>>)
    ensures |r| == |s|
    ensures forall i :: 0 <= i < |s| ==> r[i] == Renamed(s[i], ns, fixed)
  {
    seq(|s|, i requires 0 <= i < |s| => Renamed(s[i], ns, fixed))
  }

  lemma RenamedAllSnoc(orders: seq<Entry<string>>, i: nat, ns: string, fixed: Option<SortRef>)
    requires i < |orders|
    ensures RenamedAll(orders[..i + 1], ns, fixed) == RenamedAll(orders[..i], ns, fixed) + [Renamed(orders[i], ns, fixed)]
  {
  }

  /** No new key equals an original key, and no two original entries get the same new key. */
  ghost predicate FreshRenames(orders: seq<Entry<string>>, ns: string, fixed: Option<SortRef>)
  {
    && (forall i, j :: 0 <= i < |orders| && 0 <= j < |orders| ==> Renamed(orders[i], ns, fixed).key != orders[j].key)
    && (forall i, j :: 0 <= i < j < |orders| ==> Renamed(orders[i], ns, fixed).key != Renamed(orders[j], ns, fixed).key)
  }

  /** In the middle of the order pass, the next new key is not yet a key of the live array. */
  lemma RenameStepKeyAbsent(orders: seq<Entry<string>>, i: nat, ns: string, fixed: Option<SortRef>)
    requires i < |orders|
    requires FreshRenames(orders, ns, fixed)
    ensures !HasKey(orders[i..] + RenamedAll(orders[..i], ns, fixed), Renamed(orders[i], ns, fixed).key)
  {
    var k := Renamed(orders[i], ns, fixed).key;
    var current := orders[i..] + RenamedAll(orders[..i], ns, fixed);
    forall j | 0 <= j < |current| ensures current[j].key != k {
      if j < |orders| - i {
        assert current[j] == orders[i + j];
      } else {
        assert current[j] == Renamed(orders[j - (|orders| - i)], ns, fixed);
      }
    }
  }

  /** After the next entry is renamed, its old key is left only at the head. */
  lemma RenameStepOldKeyAbsent(orders: seq<Entry<string>>, i: nat, ns: string, fixed: Option<SortRef>)
    requires i < |orders|
    requires DistinctKeys(orders) && FreshRenames(orders, ns, fixed)
    ensures !HasKey(orders[i + 1..] + RenamedAll(orders[..i + 1], ns, fixed), orders[i].key)
  {
    var rest := orders[i + 1..];
    var done' := RenamedAll(orders[..i + 1], ns, fixed);
    var current := rest + done';
    forall j | 0 <= j < |current| ensures current[j].key != orders[i].key {
      if j < |rest| {
        assert current[j] == orders[i + 1 + j];
      } else {
        assert current[j] == Renamed(orders[j - |rest|], ns, fixed);
      }
    }
  }

  /** One step of the order pass when neither key clashes: the head moves to the back, renamed. */
  lemma MoveHead(x: Entry<string>, rest: seq<Entry<string>>, done: seq<Entry<string>>, ns: string, fixed: Option<SortRef>)
    requires !HasKey([x] + rest + done, Renamed(x, ns, fixed).key)
    requires !HasKey(rest + (done + [Renamed(x, ns, fixed)]), x.key)
    ensures RenameOne([x] + rest + done, x, ns, fixed) == rest + (done + [Renamed(x, ns, fixed)])
  {
    var y := Renamed(x, ns, fixed);
    PutAbsent([x] + rest + done, y.key, x.val);
    assert [x] + rest + done + [y] == [x] + (rest + (done + [y]));
    UnsetAppend([x], rest + (done + [y]), x.key);
    assert Unset([x], x.key) == [];
    UnsetAbsent(rest + (done + [y]), x.key);
    assert [] + (rest + (done + [y])) == rest + (done + [y]);
  }

  lemma {:induction false} RenameOrdersFrom(orders: seq<Entry<string>>, i: nat, ns: string, fixed: Option<SortRef>)
    requires i <= |orders|
    requires DistinctKeys(orders) && FreshRenames(orders, ns, fixed)
    ensures RenameOrders(orders[i..], orders[i..] + RenamedAll(orders[..i], ns, fixed), ns, fixed) == RenamedAll(orders, ns, fixed)
    decreases |orders| - i
  {
    if i == |orders| {
      assert orders[..i] == orders;
      assert orders[i..] + RenamedAll(orders[..i], ns, fixed) == RenamedAll(orders, ns, fixed);
    } else {
      RenameStep(orders, i, ns, fixed);
      assert orders[i..][0] == orders[i] && orders[i..][1..] == orders[i + 1..];
      RenameOrdersFrom(orders, i + 1, ns, fixed);
    }
  }

  /** One iteration of the order pass moves the next entry, renamed, behind those already done. */
  lemma RenameStep(orders: seq<Entry<string>>, i: nat, ns: string, fixed: Option<SortRef>)
    requires i < |orders|
    requires DistinctKeys(orders) && FreshRenames(orders, ns, fixed)
    ensures RenameOne(orders[i..] + RenamedAll(orders[..i], ns, fixed), orders[i], ns, fixed)
         == orders[i + 1..] + RenamedAll(orders[..i + 1], ns, fixed)
  {
    var x := orders[i];
    RenameStepKeyAbsent(orders, i, ns, fixed);
    RenameStepOldKeyAbsent(orders, i, ns, fixed);
    RenamedAllSnoc(orders, i, ns, fixed);
    assert orders[i..] == [x] + orders[i + 1..];
    MoveHead(x, orders[i + 1..], RenamedAll(orders[..i], ns, fixed), ns, fixed);
  }

  /** With distinct keys and fresh, distinct new keys, every entry is renamed in place of order. */
  lemma RenameOrdersExact(orders: seq<Entry<string>>, ns: string, fixed: Option<SortRef>)
    requires DistinctKeys(orders) && FreshRenames(orders, ns, fixed)
    ensures RenameOrders(orders, orders, ns, fixed) == RenamedAll(orders, ns, fixed)
  {
    RenameOrdersFrom(orders, 0, ns, fixed);
    assert orders[0..] == orders;
    assert orders + RenamedAll(orders[..0], ns, fixed) == orders;
  }

  /** The scratch view's single sort: renamed after the sort option, or dropped when it already has that key. */
  lemma SingleSortRenamed(key: string, direction: string, sort: SortRef, ns: string)
    ensures OrderKey(sort, ns) != key ==>
      RenameOrders([Entry(key, direction)], [Entry(key, direction)], ns, Some(sort)) == [Entry(OrderKey(sort, ns), direction)]
    ensures OrderKey(sort, ns) == key ==>
      RenameOrders([Entry(key, direction)], [Entry(key, direction)], ns, Some(sort)) == []
  {
    var e := Entry(key, direction);
    var k := OrderKey(sort, ns);
    assert [e][1..] == [];
    assert RenameOrders([e], [e], ns, Some(sort)) == Unset(Put([e], k, direction), key);
    if k != key {
      assert Put([e], k, direction) == [e] + Put([], k, direction) == [e, Entry(k, direction)];
      assert [e, Entry(k, direction)][1..] == [Entry(k, direction)];
      assert [Entry(k, direction)][1..] == [];
      assert Unset([e, Entry(k, direction)], key) == [Entry(k, direction)] + Unset([], key);
    } else {
      assert Put([e], k, direction) == [Entry(k, direction)] + [e][1..];
      assert Unset([Entry(k, direction)], key) == Unset([], key);
    }
  }

  // ---------------------------------------------------------------------
  // The whole rewrite

  /** The query after the field, table, condition and order passes and `range(0, 1)`. */
  function RewrittenParts(p: SelectParts, keep: string, ns: string, fixed: Option<SortRef>): SelectParts
  {
    SelectParts(
      NamespacedFields(PrunedFields(p.fields, keep), ns),
      NamespacedTables(p.tables, ns),
      NamespacedGroup(p.where, ns),
      RenameOrders(p.orders, p.orders, ns, fixed),
      Some(RowRange(0, 1)))
  }

  lemma RewriteSelectsBaseIdOnly(p: SelectParts, keep: string, ns: string, fixed: Option<SortRef>)
    ensures var r := RewrittenParts(p, keep, ns, fixed);
      && r.fields.Keys <= {keep} && |r.fields| <= 1
      && (keep in r.fields <==> keep in p.fields)
      && (keep in r.fields ==>
            && r.fields[keep].table == p.fields[keep].table + ns
            && r.fields[keep].alias == p.fields[keep].alias + ns
            && r.fields[keep].field == p.fields[keep].field)
  {
  }

  lemma RewriteNamespacesTables(p: SelectParts, keep: string, ns: string, fixed: Option<SortRef>)
    ensures var r := RewrittenParts(p, keep, ns, fixed);
      && |r.tables| == |p.tables|
      && forall i :: 0 <= i < |p.tables| ==>
        && r.tables[i].alias == p.tables[i].alias + ns
        && r.tables[i].table == p.tables[i].table
        && r.tables[i].joinType == p.tables[i].joinType
        && (r.tables[i].condition.Some? <==> p.tables[i].condition.Some?)
        && (p.tables[i].condition.Some? ==>
              r.tables[i].condition.value == ConditionNamespace(p.tables[i].condition.value, ns))
  {
  }

  lemma RewriteLimitsToOneRow(p: SelectParts, keep: string, ns: string, fixed: Option<SortRef>)
    ensures RewrittenParts(p, keep, ns, fixed).range == Some(RowRange(0, 1))
  {
  }

  // ---------------------------------------------------------------------
  // Outer field substitution

  /** `':' . str_replace('.', '_', outer)`. */
  function Placeholder(outer: string): string
  {
    ":" + ReplaceAll(outer, ".", "_")
  }

  /** The blind `str_replace` of the placeholder by the outer field over the whole SQL text. */
  function SubstituteOuterField(sql: string, outer: string): string
  {
    ReplaceAll(sql, Placeholder(outer), outer)
  }

  lemma PlaceholderOfQualifiedField(table: string, column: string)
    requires '.' !in table && '.' !in column
    ensures Placeholder(table + "." + column) == ":" + table + "_" + column
  {
    ReplaceCharJoin(table, column, '.', "_");
    assert ":" + (table + "_" + column) == ":" + table + "_" + column;
  }

  lemma UsersUidPlaceholder()
    ensures Placeholder("users.uid") == ":users_uid"
  {
    PlaceholderOfQualifiedField("users", "uid");
    assert "users" + "." + "uid" == "users.uid";
  }

  /** The first placeholder becomes the outer field; the text before it is kept. */
  lemma OuterFieldSubstituted(pre: string, post: string, outer: string)
    requires forall i :: 0 <= i < |pre| ==> !OccursAt(pre + Placeholder(outer) + post, Placeholder(outer), i)
    ensures SubstituteOuterField(pre + Placeholder(outer) + post, outer) == pre + outer + SubstituteOuterField(post, outer)
    ensures !Contains(post, Placeholder(outer)) ==>
      SubstituteOuterField(pre + Placeholder(outer) + post, outer) == pre + outer + post
  {
    ReplaceAllFirst(pre, Placeholder(outer), post, outer);
    if !Contains(post, Placeholder(outer)) {
      ReplaceAllAbsent(post, Placeholder(outer), outer);
    }
  }

  /**
   * No placeholder is left when the outer field has no colon and no
   * placeholder in the SQL is directly preceded by a proper prefix of it.
   */
  lemma NoPlaceholderLeft(sql: string, outer: string)
    requires ':' !in outer
    requires NoStraddle(sql, Placeholder(outer))
    ensures !Contains(SubstituteOuterField(sql, outer), Placeholder(outer))
  {
    assert Placeholder(outer)[0] == ':';
    NoStraddleNoMatch(sql, Placeholder(outer), outer);
  }

  /** When moreover every colon of the SQL opens a placeholder, no colon is left at all. */
  lemma NoColonLeft(sql: string, outer: string)
    requires ':' !in outer
    requires forall i :: 0 <= i < |sql| && sql[i] == ':' ==> OccursAt(sql, Placeholder(outer), i)
    ensures ':' !in SubstituteOuterField(sql, outer)
    ensures !Contains(SubstituteOuterField(sql, outer), Placeholder(outer))
  {
    ReplaceAllLeavesNoLead(sql, Placeholder(outer), outer);
  }

  /**
   * An outer field without the placeholder in it does not by itself make the
   * result placeholder-free: the replacement text can complete a placeholder
   * that begins before it.
   */
  lemma PlaceholderCanSurvive()
    ensures Placeholder("n.n") == ":n_n"
    ensures SubstituteOuterField(":n_:n_n", "n.n") == ":n_n.n"
    ensures !Contains("n.n", ":n_n") && Contains(SubstituteOuterField(":n_:n_n", "n.n"), ":n_n")
    ensures !NoStraddle(":n_:n_n", ":n_n")
  {
    PlaceholderOfQualifiedField("n", "n");
    assert "n" + "." + "n" == "n.n";
    var pat := ":n_n";
    var pre := ":n_";
    var sql := pre + pat;
    assert sql == ":n_:n_n";
    forall i | 0 <= i < 3 ensures !OccursAt(sql, pat, i) {
      if i == 0 {
        assert sql[0..4][3] != pat[3];
      } else {
        assert sql[i..i + 4][0] != pat[0];
      }
    }
    assert pre == pat[..3] && "n.n"[..1] == pat[3..];
    StraddleSurvives(pre, pat, "n.n");
    assert pre + "n.n" == ":n_n.n";
  }

  /** Without a namespace option, `node.nid` becomes `nodeINNER.nid`: no underscore. */
  lemma DefaultNamespaceColumn()
    ensures ConditionNamespace("node.nid", SubqueryNamespace("")) == "nodeINNER.nid"
  {
    var ns := SubqueryNamespace("");
    assert ns == "INNER";
    QualifiedName("node", "nid", ns);
    assert "node" + "." + "nid" == "node.nid";
    assert "node" + ns + "." + "nid" == "nodeINNER.nid";
  }

  /** Without a namespace option, a `table.field` sort such as `node.changed` is renamed `tableINNER.field`. */
  lemma DefaultNamespaceOrderKey(table: string, field: string)
    requires '.' !in table && '.' !in field
    ensures OrderKey(SplitSortKey(table + "." + field), SubqueryNamespace("")) == table + "INNER." + field
  {
    SplitQualifiedKey(table, field, "");
    assert table + "INNER" + "." + field == table + "INNER." + field;
  }

  lemma TermDataPlaceholder()
    ensures Placeholder("term_data.tid") == ":term_data_tid"
  {
    var table, column := "term_data", "tid";
    assert '.' !in table && '.' !in column;
    PlaceholderOfQualifiedField(table, column);
    assert table + "." + column == "term_data.tid";
    assert ":" + table + "_" + column == ":term_data_tid";
  }
}
