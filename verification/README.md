# Drupal Views handlers: groupwise maximum, counter, current user, many-to-one

This project models four handlers of the Drupal Views module and proves what
they promise.

- **Groupwise-maximum relationship.** It joins each row of a view to one
  representative row of another base table, such as the most recent node of a
  term. A scratch view builds a query for the base table. The handler then
  rewrites that query into a correlated subquery:
  - it keeps only the base id among the selected fields;
  - it appends a namespace suffix to every table alias, join condition, field
    table and alias, WHERE column reference and ORDER BY key;
  - it limits the result to one row;
  - it replaces the outer field's placeholder in the SQL text with the outer
    field itself.

  The SQL is cached per view, display and relationship, unless regeneration is
  asked for. Saving the options clears that cache entry.
- **Counter field.** It numbers result rows from a configurable start and
  continues the numbering across pager pages.
- **Current-user filter.** It adds one OR group comparing a user column with
  the current-user token, with an optional IS NULL test.
- **Many-to-one filter.** It offers the operators or, and, not, and, when the
  definition allows empty, the NULL tests. It sends table joining and filtering
  to its helper object when the operator says so.

The modules are:

- `PhpValues`: PHP's `empty()`, `is_numeric()` on integers, and ordered
  arrays. An assignment to an existing key keeps that key's place. `unset`
  removes a key. `+` only adds missing keys.
- `StringReplace`: `str_replace` for one search string.
- `SelectQueryModel`: the pieces of a built SELECT query and the query object
  that holds them.
- `GroupwiseMaxRewrite`: each rewriting pass stated as a function on values,
  with its properties.
- `GroupwiseMax`: the handler class, whose passes are imperative methods on the
  query object. Each method is proved equal to the value-level rewrite. The
  module also holds the cache, the join and the option defaults.
- `HandlerOptions`: option definitions, meaning a default value and the
  `'bool'` flag.
- `Counter`, `CurrentUserFilter` and `ManyToOneFilter`: the three smaller
  handlers.

The host supplies several things as parameters:

- The scratch view's query, built from the options and the view namespace.
- The SQL serialisation of a query.
- The base table's id field.

The cache bin, the view query and the many-to-one helper are small classes.
They record what is asked of them.

The model keeps these points of the code's behaviour, which are easy to
misread:

- There is no "exactly one placeholder" check. Every occurrence is replaced,
  and no error is raised when there is none or more than one.
- There are no errors for a missing definition key or an unknown sort.
- Without a namespace option, the rewrite suffix is `INNER` with no
  underscore. So `node.nid` becomes `nodeINNER.nid`, not `node_INNER.nid`.
  Only the scratch view gets `_INNER`.
- When the relationship is not required, the join type is the definition's own
  `type`. It is not forced to LEFT.

## Model

| member | source | states |
|---|---|---|
| GroupwiseMaxRewrite.SubqueryNamespace | lib/Drupal/views/Plugin/views/relationship/GroupwiseMax.php:217-217 | the suffix every rewriting pass appends: `_option` for a non-empty option, `INNER` otherwise; `NamespaceChoice` states both cases |
| GroupwiseMaxRewrite.TempViewNamespace | lib/Drupal/views/Plugin/views/relationship/GroupwiseMax.php:216-216 | the namespace of the scratch view: `_option` for a non-empty option, `_INNER` otherwise; `NamespaceChoice` relates it to the subquery namespace |
| GroupwiseMaxRewrite.ConditionNamespace | lib/Drupal/views/Plugin/views/relationship/GroupwiseMax.php:332-334 | `condition_namespace`: every dot gets the namespace before it; `NoDotNoChange`, `QualifiedName`, `NamespaceLength`, `DotsFollowNamespace` and `NamespaceRoundTrip` state what it does |
| GroupwiseMaxRewrite.NamespaceChoice | lib/Drupal/views/Plugin/views/relationship/GroupwiseMax.php:216-217 | a non-empty option gives `_option` to both the rewrite and the scratch view; an empty one (including "0") gives `INNER` to the rewrite and `_INNER` to the view, and the two differ by the underscore exactly then |
| GroupwiseMaxRewrite.NoDotNoChange | lib/Drupal/views/Plugin/views/relationship/GroupwiseMax.php:332-334 | a string without a dot is left unchanged by `condition_namespace` |
| GroupwiseMaxRewrite.QualifiedName | lib/Drupal/views/Plugin/views/relationship/GroupwiseMax.php:327-334 | `table.column` becomes `table` + namespace + `.column` |
| GroupwiseMaxRewrite.NamespaceLength | lib/Drupal/views/Plugin/views/relationship/GroupwiseMax.php:332-334 | the result grows by the namespace's length for every dot, so every dot is rewritten, not only a table qualifier |
| GroupwiseMaxRewrite.DotsFollowNamespace | lib/Drupal/views/Plugin/views/relationship/GroupwiseMax.php:332-334 | every dot of the result directly follows a copy of the namespace |
| GroupwiseMaxRewrite.NamespaceRoundTrip | lib/Drupal/views/Plugin/views/relationship/GroupwiseMax.php:332-334 | removing the namespace before every dot gives back the original string, for a namespace without dots |
| GroupwiseMaxRewrite.DefaultNamespaceColumn | lib/Drupal/views/Plugin/views/relationship/GroupwiseMax.php:216-217 | with no namespace option, `node.nid` is rewritten to `nodeINNER.nid` |
| GroupwiseMaxRewrite.DefaultNamespaceOrderKey | lib/Drupal/views/Plugin/views/relationship/GroupwiseMax.php:278-286 | with no namespace option, a `table.field` sort becomes `tableINNER.field` |
| GroupwiseMaxRewrite.PrunedFields | lib/Drupal/views/Plugin/views/relationship/GroupwiseMax.php:248-254 | only the base id key can remain, so there is at most one field; it remains exactly when it was selected, with its entry unchanged |
| GroupwiseMaxRewrite.NamespacedFields | lib/Drupal/views/Plugin/views/relationship/GroupwiseMax.php:267-270 | the field pass keeps the set of field names |
| GroupwiseMaxRewrite.NamespacedTables | lib/Drupal/views/Plugin/views/relationship/GroupwiseMax.php:258-265 | the table pass keeps the number of tables |
| GroupwiseMaxRewrite.NamespacedItem | lib/Drupal/views/Plugin/views/relationship/GroupwiseMax.php:312-325 | the condition pass keeps every entry's key |
| GroupwiseMaxRewrite.NamespacedGroup | lib/Drupal/views/Plugin/views/relationship/GroupwiseMax.php:312-325 | the condition pass keeps the number of entries of every group |
| GroupwiseMaxRewrite.ColumnsNamespaced | lib/Drupal/views/Plugin/views/relationship/GroupwiseMax.php:312-325 | the column references reached at list positions, nested groups included, are exactly the old ones passed through `condition_namespace`, in order |
| GroupwiseMaxRewrite.ColumnsNamespacedFrom | lib/Drupal/views/Plugin/views/relationship/GroupwiseMax.php:312-325 | the same, from any position of a group on |
| GroupwiseMaxRewrite.SkeletonKept | lib/Drupal/views/Plugin/views/relationship/GroupwiseMax.php:312-325 | everything except the reached column names is unchanged: keys such as `#conjunction`, values, operators, non-string fields and the nesting |
| GroupwiseMaxRewrite.SplitSortKey | lib/Drupal/views/Plugin/views/relationship/GroupwiseMax.php:282-282 | `list($sort_table, $sort_field) = explode('.', $key)`: both pieces are dot-free, the table is a prefix of the key, and a non-empty field follows it after one dot |
| GroupwiseMaxRewrite.BeforeDot | lib/Drupal/views/Plugin/views/relationship/GroupwiseMax.php:210-210 | the first piece of `explode('.', s)` is a dot-free prefix of `s`, followed by a dot unless it is all of `s` |
| GroupwiseMaxRewrite.SplitQualifiedKey | lib/Drupal/views/Plugin/views/relationship/GroupwiseMax.php:282-282 | `list($table, $field) = explode('.', key)` gives back the table and field of `table.field` and of `table.field.more` |
| GroupwiseMaxRewrite.RenameOne | lib/Drupal/views/Plugin/views/relationship/GroupwiseMax.php:284-285 | one iteration of the order loop: write the direction under the new key, then unset the old key; `RenameOrdersOnlyRenamed` and `RenameOrdersExact` state the loop's outcome |
| GroupwiseMaxRewrite.RenameOrders | lib/Drupal/views/Plugin/views/relationship/GroupwiseMax.php:278-286 | the order loop over a snapshot of the entries applied to the live array; characterised by `RenameOrdersOnlyRenamed`, `RenameOrdersExact` and `SingleSortRenamed` |
| GroupwiseMaxRewrite.OrderKeyIsConditionNamespace | lib/Drupal/views/Plugin/views/relationship/GroupwiseMax.php:284-284 | for a `table.field` key, the new order key equals the key passed through `condition_namespace` |
| GroupwiseMaxRewrite.RenameOrdersOnlyRenamed | lib/Drupal/views/Plugin/views/relationship/GroupwiseMax.php:278-286 | every ORDER BY entry left is some original entry under its new key, with its direction |
| GroupwiseMaxRewrite.RenameOrdersExact | lib/Drupal/views/Plugin/views/relationship/GroupwiseMax.php:278-286 | when the keys are distinct and the new keys neither clash with each other nor with old keys, the pass renames every entry, keeping directions and order |
| GroupwiseMaxRewrite.SingleSortRenamed | lib/Drupal/views/Plugin/views/relationship/GroupwiseMax.php:209-212 | the scratch view's one sort is renamed to the option's `table` + namespace + `.field`; it is lost when the new key equals the old one, because the unset follows the write |
| GroupwiseMaxRewrite.RewrittenParts | lib/Drupal/views/Plugin/views/relationship/GroupwiseMax.php:248-289 | the query after the field, table, condition and order passes and the range; `RewriteSelectsBaseIdOnly`, `RewriteNamespacesTables`, `ColumnsNamespaced`, `SkeletonKept` and `RewriteLimitsToOneRow` state its parts |
| GroupwiseMaxRewrite.RewriteSelectsBaseIdOnly | lib/Drupal/views/Plugin/views/relationship/GroupwiseMax.php:248-270 | after the rewrite only the base id field can remain, with the namespace appended to its table and alias and its column unchanged |
| GroupwiseMaxRewrite.RewriteNamespacesTables | lib/Drupal/views/Plugin/views/relationship/GroupwiseMax.php:258-265 | every alias gains exactly the suffix and every join type is kept; a condition is namespaced when it is set, and a table without one stays without one |
| GroupwiseMaxRewrite.RewriteLimitsToOneRow | lib/Drupal/views/Plugin/views/relationship/GroupwiseMax.php:289-289 | the rewritten query has the range 0, 1 |
| GroupwiseMaxRewrite.Placeholder | lib/Drupal/views/Plugin/views/relationship/GroupwiseMax.php:299-299 | the placeholder is a colon followed by the outer field with its dots turned into underscores; `PlaceholderOfQualifiedField` states it for `table.column` |
| GroupwiseMaxRewrite.SubstituteOuterField | lib/Drupal/views/Plugin/views/relationship/GroupwiseMax.php:300-300 | every occurrence of the placeholder in the SQL becomes the outer field; `OuterFieldSubstituted`, `NoPlaceholderLeft`, `NoColonLeft` and `PlaceholderCanSurvive` state what that gives |
| GroupwiseMaxRewrite.PlaceholderOfQualifiedField | lib/Drupal/views/Plugin/views/relationship/GroupwiseMax.php:299-299 | the placeholder of `table.column` is `:table_column` |
| GroupwiseMaxRewrite.UsersUidPlaceholder | lib/Drupal/views/Plugin/views/relationship/GroupwiseMax.php:295-299 | the placeholder of `users.uid` is `:users_uid` |
| GroupwiseMaxRewrite.TermDataPlaceholder | lib/Drupal/views/Plugin/views/relationship/GroupwiseMax.php:299-299 | the placeholder of `term_data.tid` is `:term_data_tid` |
| GroupwiseMaxRewrite.OuterFieldSubstituted | lib/Drupal/views/Plugin/views/relationship/GroupwiseMax.php:299-300 | the first placeholder becomes the outer field with the text before it kept, and with no later placeholder the rest is kept too |
| GroupwiseMaxRewrite.NoPlaceholderLeft | lib/Drupal/views/Plugin/views/relationship/GroupwiseMax.php:299-300 | when the outer field has no colon and no placeholder in the SQL is directly preceded by a proper prefix of the placeholder (`NoStraddle`), no placeholder is left |
| GroupwiseMaxRewrite.NoColonLeft | lib/Drupal/views/Plugin/views/relationship/GroupwiseMax.php:299-300 | when the outer field has no colon and every colon of the SQL opens a placeholder, neither a colon nor the placeholder is left |
| GroupwiseMaxRewrite.PlaceholderCanSurvive | lib/Drupal/views/Plugin/views/relationship/GroupwiseMax.php:299-300 | an outer field without the placeholder does not make the result placeholder-free: `:n_:n_n` with outer field `n.n` gives `:n_n.n`, and that SQL breaks the `NoStraddle` condition |
| GroupwiseMax.OptionDefinition | lib/Drupal/views/Plugin/views/relationship/GroupwiseMax.php:71-82 | `option_definition()`: the parent's definitions with the five subquery options assigned in order; `subquery_namespace` defaults to FALSE without the boolean flag, and the other defaults are the lemmas below |
| GroupwiseMax.SortDefault | lib/Drupal/views/Plugin/views/relationship/GroupwiseMax.php:72-75 | `subquery_sort` defaults to NULL, whatever the parent defined |
| GroupwiseMax.OrderDefault | lib/Drupal/views/Plugin/views/relationship/GroupwiseMax.php:72-77 | `subquery_order` defaults to DESC |
| GroupwiseMax.RegenerateDefault | lib/Drupal/views/Plugin/views/relationship/GroupwiseMax.php:72-78 | `subquery_regenerate` defaults to FALSE and is flagged as boolean |
| GroupwiseMax.ViewAndNamespaceDefaults | lib/Drupal/views/Plugin/views/relationship/GroupwiseMax.php:72-80 | `subquery_view` and `subquery_namespace` default to FALSE |
| GroupwiseMax.OptionDefinitionKeepsParent | lib/Drupal/views/Plugin/views/relationship/GroupwiseMax.php:71-82 | every definition other than the five subquery options is the parent's |
| HandlerOptions.DefineKeeps | lib/Drupal/views/Plugin/views/relationship/GroupwiseMax.php:75-80 | assigning one option definition leaves every other name as it was |
| GroupwiseMax.LeftQuerySql | lib/Drupal/views/Plugin/views/relationship/GroupwiseMax.php:193-303 | the SQL `left_query` returns: the scratch view's query rewritten under the subquery namespace, serialised, with the outer field substituted; `LeftQueryNamespaces` states which namespaces it uses |
| GroupwiseMax.SortFrom | lib/Drupal/views/Plugin/views/relationship/GroupwiseMax.php:209-210 | there is no single sort to rename after exactly when a subquery view is set |
| GroupwiseMax.LeftQueryNamespaces | lib/Drupal/views/Plugin/views/relationship/GroupwiseMax.php:193-217 | `left_query` builds with `_INNER` and rewrites with `INNER` without an option, and uses `_option` for both with one |
| GroupwiseMax.CacheId | lib/Drupal/views/Plugin/views/relationship/GroupwiseMax.php:363-363 | the cache key: the fixed prefix, then view name, display and relationship id joined by colons; `CacheIdSeparatesIds` and `CacheIdAmbiguous` state when keys collide |
| GroupwiseMax.CacheIdSeparatesIds | lib/Drupal/views/Plugin/views/relationship/GroupwiseMax.php:363-363 | relationships of the same view and display get the same key exactly when their ids are equal |
| GroupwiseMax.CacheIdAmbiguous | lib/Drupal/views/Plugin/views/relationship/GroupwiseMax.php:363-363 | the key is not escaped: view `a:b` with display `c` shares a key with view `a` and display `b:c` |
| GroupwiseMax.CachedLeftQuery | lib/Drupal/views/Plugin/views/relationship/GroupwiseMax.php:357-372 | the SQL `query()` uses and the cache it leaves; `RegenerateBypassesCache`, `MissStoresSql`, `CachedIsStable` and `DeletedKeyRebuilds` state each path |
| GroupwiseMax.RegenerateBypassesCache | lib/Drupal/views/Plugin/views/relationship/GroupwiseMax.php:357-360 | with regeneration the SQL is built anew and the cache is left unchanged |
| GroupwiseMax.MissStoresSql | lib/Drupal/views/Plugin/views/relationship/GroupwiseMax.php:368-371 | on a miss, the SQL used is the one built, and it is stored under the key with every other entry kept |
| GroupwiseMax.CachedIsStable | lib/Drupal/views/Plugin/views/relationship/GroupwiseMax.php:361-367 | after one cached run, a later run gets the same SQL and leaves the cache as it was, whatever would be built now |
| GroupwiseMax.DeletedKeyRebuilds | lib/Drupal/views/Plugin/views/relationship/GroupwiseMax.php:175-178 | after the key is deleted, the next run builds the SQL again and stores it |
| GroupwiseMax.BaseFieldFor | lib/Drupal/views/Plugin/views/relationship/GroupwiseMax.php:344-344 | the definition's base field, or the base table's id field when it has none |
| GroupwiseMax.JoinTypeFor | lib/Drupal/views/Plugin/views/relationship/GroupwiseMax.php:353-355 | the join type: INNER for a required relationship, else the definition's; stated by `JoinTypeRule` |
| GroupwiseMax.JoinIdFor | lib/Drupal/views/Plugin/views/relationship/GroupwiseMax.php:374-379 | the join plugin id: the definition's non-empty `join_id`, else `subquery`; stated by `JoinIdRule` |
| GroupwiseMax.JoinTypeRule | lib/Drupal/views/Plugin/views/relationship/GroupwiseMax.php:353-355 | a required relationship joins INNER; otherwise the definition's type stands |
| GroupwiseMax.JoinIdRule | lib/Drupal/views/Plugin/views/relationship/GroupwiseMax.php:374-379 | the join id is the definition's when it is non-empty, else `subquery`, and never empty |
| GroupwiseMax.CacheBin.Get | lib/Drupal/views/Plugin/views/relationship/GroupwiseMax.php:364-365 | a hit returns the stored SQL, and it is a hit exactly when the key is present |
| GroupwiseMax.CacheBin.Set | lib/Drupal/views/Plugin/views/relationship/GroupwiseMax.php:370-370 | stores the SQL under the key |
| GroupwiseMax.CacheBin.Delete | lib/Drupal/views/Plugin/views/relationship/GroupwiseMax.php:177-177 | removes the key and nothing else |
| GroupwiseMax.RelationshipQuery.AddRelationship | lib/Drupal/views/Plugin/views/relationship/GroupwiseMax.php:389-389 | appends one relationship with the alias, join, base and link |
| GroupwiseMax.GroupwiseMaxHandler.PruneFields | lib/Drupal/views/Plugin/views/relationship/GroupwiseMax.php:248-254 | the loop over a snapshot of the field names leaves exactly the pruned field map and changes nothing else |
| GroupwiseMax.GroupwiseMaxHandler.NamespaceTables | lib/Drupal/views/Plugin/views/relationship/GroupwiseMax.php:258-265 | the table loop yields the namespaced tables and changes nothing else |
| GroupwiseMax.GroupwiseMaxHandler.NamespaceFields | lib/Drupal/views/Plugin/views/relationship/GroupwiseMax.php:267-270 | the field loop yields the namespaced fields and changes nothing else |
| GroupwiseMax.GroupwiseMaxHandler.AlterSubqueryCondition | lib/Drupal/views/Plugin/views/relationship/GroupwiseMax.php:312-325 | the recursive walk returns the namespaced condition tree |
| GroupwiseMax.GroupwiseMaxHandler.NamespaceOrders | lib/Drupal/views/Plugin/views/relationship/GroupwiseMax.php:278-286 | the write-then-unset loop over a snapshot of the ORDER BY array yields the order pass's result and changes nothing else |
| GroupwiseMax.GroupwiseMaxHandler.LeftQuery | lib/Drupal/views/Plugin/views/relationship/GroupwiseMax.php:193-303 | sets the subquery namespace and returns the SQL of the rewritten query, with the outer field substituted |
| GroupwiseMax.GroupwiseMaxHandler.SubquerySql | lib/Drupal/views/Plugin/views/relationship/GroupwiseMax.php:357-372 | with regeneration the SQL is built anew and the cache left alone; otherwise a cached entry is used as is, and a miss builds the SQL and stores it under the key; the subquery namespace is set exactly when the SQL is built |
| GroupwiseMax.GroupwiseMaxHandler.Query | lib/Drupal/views/Plugin/views/relationship/GroupwiseMax.php:341-390 | picks the base field and join type, takes the SQL from the cache or builds and stores it, and adds one relationship named `<definition base>_<table>` through a join with the right id; the subquery namespace is set when the SQL is built and kept on a cache hit |
| GroupwiseMax.GroupwiseMaxHandler.OptionsFormSubmit | lib/Drupal/views/Plugin/views/relationship/GroupwiseMax.php:175-178 | deletes exactly the cache key that `query()` reads and writes |
| Counter.OptionDefinition | lib/Drupal/views/Plugin/views/field/Counter.php:23-27 | `counter_start` defaults to 1; other definitions are the parent's |
| Counter.StartCount | lib/Drupal/views/Plugin/views/field/Counter.php:47-47 | the count before the row: one below a numeric start, 0 otherwise |
| Counter.PagerBase | lib/Drupal/views/Plugin/views/field/Counter.php:50-52 | the rows on earlier pages plus the pager offset, or 0 without a pager |
| Counter.Render | lib/Drupal/views/Plugin/views/field/Counter.php:44-57 | `render()`: start count plus pager base plus the row index plus one; `RenderUnpaged`, `RenderPaged`, `RenderNextRow` and `RenderAcrossPages` state the numbering |
| Counter.RenderUnpaged | lib/Drupal/views/Plugin/views/field/Counter.php:45-58 | without a pager, a numeric start `s` numbers row `i` as `s + i`, and any other start as `i + 1` |
| Counter.RenderPaged | lib/Drupal/views/Plugin/views/field/Counter.php:50-55 | with a pager, the number adds `items_per_page * current_page + offset` |
| Counter.DefaultStartFirstRow | lib/Drupal/views/Plugin/views/field/Counter.php:25-57 | with the default start, the first row of the first page is numbered 1 |
| Counter.RenderNextRow | lib/Drupal/views/Plugin/views/field/Counter.php:55-55 | the next row gets the next number |
| Counter.RenderAcrossPages | lib/Drupal/views/Plugin/views/field/Counter.php:51-55 | the first row of the next page follows the last row of a full page |
| Counter.NonNumericStartIsOne | lib/Drupal/views/Plugin/views/field/Counter.php:48-48 | a non-numeric start counts as 1 |
| Counter.TextStartIsNumber | lib/Drupal/views/Plugin/views/field/Counter.php:48-48 | a start given as an integer literal counts like that integer |
| PhpValues.IntegerTextValues | lib/Drupal/views/Plugin/views/field/Counter.php:48-48 | "1" and "-2" are numeric with values 1 and -2; "", "-" and TRUE are not numeric |
| CurrentUserFilter.CurrentUserGroup | lib/Views/user/Plugin/views/filter/Current.php:36-44 | the OR group: one or two conditions, all on the filter's column; `EmptyValueGroup`, `NonEmptyValueGroup` and `FilterKeeps` state which conditions and which rows |
| CurrentUserFilter.FieldReference | lib/Views/user/Plugin/views/filter/Current.php:33-33 | the reference is the alias, a dot, the real field and a trailing space |
| CurrentUserFilter.EmptyValueGroup | lib/Views/user/Plugin/views/filter/Current.php:36-41 | with an empty value, the OR group holds the `<>` test first, and an IS NULL test exactly when NULLs are accepted |
| CurrentUserFilter.NonEmptyValueGroup | lib/Views/user/Plugin/views/filter/Current.php:42-44 | with a non-empty value, the group is the single `=` test, whatever the accept-NULL setting |
| CurrentUserFilter.FilterKeeps | lib/Views/user/Plugin/views/filter/Current.php:36-44 | a row passes exactly when it is the current user's (non-empty value), or else when it is someone else's or, with NULLs accepted, has no user |
| CurrentUserFilter.DbOr.Condition | lib/Views/user/Plugin/views/filter/Current.php:37-37 | appends one comparison |
| CurrentUserFilter.DbOr.IsNullCondition | lib/Views/user/Plugin/views/filter/Current.php:39-39 | appends one IS NULL test |
| CurrentUserFilter.ViewQuery.EnsureTableCall | lib/Views/user/Plugin/views/filter/Current.php:31-31 | records one table request |
| CurrentUserFilter.ViewQuery.AddWhereCall | lib/Views/user/Plugin/views/filter/Current.php:45-45 | records one WHERE group under the given filter group |
| CurrentUserFilter.Current.constructor | lib/Views/user/Plugin/views/filter/Current.php:25-28 | labels the TRUE value |
| CurrentUserFilter.Current.EnsureMyTable | lib/Views/user/Plugin/views/filter/Current.php:31-31 | asks the query for the handler's table |
| CurrentUserFilter.Current.Query | lib/Views/user/Plugin/views/filter/Current.php:30-46 | the query gets exactly the table request, then one WHERE entry with the current-user OR group on the field reference, under the option's group |
| ManyToOneFilter.Operators | lib/Drupal/views/Plugin/views/filter/ManyToOne.php:58-104 | `operators()`: the three list operators, plus the two empty tests when the definition allows empty; stated by `BaseOperators`, `EmptyOperators` and `OperatorKeys` |
| ManyToOneFilter.BaseOperators | lib/Drupal/views/Plugin/views/filter/ManyToOne.php:59-84 | or, and and not are always offered, each with `op_helper`, one value and the helper for joining |
| ManyToOneFilter.EmptyOperators | lib/Drupal/views/Plugin/views/filter/ManyToOne.php:85-101 | `empty` and `not empty` are offered exactly when `allow empty` is non-empty, with `op_empty`, no value and no helper |
| ManyToOneFilter.OperatorKeys | lib/Drupal/views/Plugin/views/filter/ManyToOne.php:58-104 | no other operator is ever offered |
| PhpValues.UnionKeys | lib/Drupal/views/Plugin/views/filter/ManyToOne.php:87-100 | `+` never overwrites a key of its left side and adds each missing key of its right side |
| PhpValues.UnionBaseKept | lib/Drupal/views/Plugin/views/filter/ManyToOne.php:87-100 | `+` keeps its left side as a prefix, in order |
| ManyToOneFilter.EnsureMyTableTarget | lib/Drupal/views/Plugin/views/filter/ManyToOne.php:119-127 | the helper when the operator's entry names it for `ensure_my_table`, else the parent; stated by `EnsureMyTableDispatch` |
| ManyToOneFilter.EnsureMyTableDispatch | lib/Drupal/views/Plugin/views/filter/ManyToOne.php:119-127 | `ensure_my_table` goes to the helper exactly for or, and and not; empty tests and unknown operators go to the parent |
| ManyToOneFilter.OwnDefaults | lib/Drupal/views/Plugin/views/filter/ManyToOne.php:44-45 | the operator defaults to `or` and the value to an empty array; other definitions are the parent's |
| ManyToOneFilter.ManyToOneHelper.OptionDefinition | lib/Drupal/views/Plugin/views/filter/ManyToOne.php:47-52 | the helper adds its own option definitions |
| ManyToOneFilter.ManyToOne.Init | lib/Drupal/views/Plugin/views/filter/ManyToOne.php:36-39 | a new helper is attached after the parent's initialisation |
| ManyToOneFilter.ManyToOne.OptionDefinition | lib/Drupal/views/Plugin/views/filter/ManyToOne.php:41-56 | the list defaults are set, then the helper's options are added, through the attached helper or a new one |
| ManyToOneFilter.ManyToOne.EnsureMyTable | lib/Drupal/views/Plugin/views/filter/ManyToOne.php:119-127 | the helper gets the call when the operator's entry names it; otherwise the parent does |
| ManyToOneFilter.ManyToOne.OpHelper | lib/Drupal/views/Plugin/views/filter/ManyToOne.php:129-134 | nothing happens for an empty value; otherwise the helper gets one `add_filter` call |

## Left out

- The options forms and value forms: `options_form` of the relationship and of the counter, and `value_form` of the many-to-one filter. They are user interface code.
- Building the scratch view: `get_temporary_view`, `views_get_view`, `add_item`, the `**CORRELATED**` argument and `build`. Each is host code. Their result is the `build` parameter, given the options and the view namespace.
- `views_fetch_data`: the base table's id field is a parameter of `query()`.
- `__toString` of the query is the `toSql` parameter. The SQL text is otherwise opaque.
- The `views_data` cache backend is a map. A stored NULL is not modelled.
- `views_get_join` and the join plugin's `construct()` are not modelled. The join records its id, its definition and the `adjusted` flag.
- GroupwiseMax.JoinDefinition: the keys `query()` sets (table, field, left_table, left_field, type, left_query) are kept; the rest of the definition array is not modelled.
- GroupwiseMax.RelationshipQuery.AddRelationship: the alias is taken as requested. Any renaming by the host is not modelled.
- `ensure_my_table` of the relationship's parent class is not modelled. The alias it sets is a field of the handler.
- CurrentUserFilter.Current.EnsureMyTable: records the table request. The alias the host resolves is taken as given.
- `add_where` of the view query is not modelled. Creating the filter group is host code, so the model records the call.
- The ManyToOne helper's internals are not modelled. The helper records the calls it receives, and its option definitions are a parameter.
- The parent classes' `init` and `option_definition` are not modelled. `Init` takes the operator and value directly, and the parent definitions are a parameter.
- `t()` translation: titles and labels are the untranslated English strings.
- `Counter.query()` is an empty override that adds nothing to the query. It has nothing to model.
- `is_numeric` covers integers and signed integer literals. Floats, exponents, leading whitespace and the float arithmetic they cause are not modelled. Nor is integer overflow to float.
- In PHP, a numeric string key of a condition array becomes an integer key. Here condition keys are positions or names, and numeric-looking names are not modelled.
- The `foreach` over the ORDER BY array follows PHP 7: the loop iterates over a snapshot while writes go to the live array. PHP 5's by-reference iteration is not modelled.
- The tables array is a sequence in its PHP order. Its keys are not modelled because the pass never changes them.
- AlterSubqueryCondition: nested condition objects are updated in place in the source. The model rebuilds the tree as a value, with the same result, but without sharing between condition objects.
- CurrentUserFilter.Current.Query: the OR object given to `add_where` is recorded as a value. Changes made to it later are not modelled.
- GroupwiseMaxRewrite.NoPlaceholderLeft: "no placeholder remains whenever the outer field lacks it" does not hold for the blind replacement, because the outer field can complete a placeholder begun just before the one it replaces (see PlaceholderCanSurvive). So the lemma asks, besides a colon-free outer field, that no placeholder in the SQL is directly preceded by a proper prefix of it; PlaceholderCanSurvive proves that its SQL breaks this condition.
- GroupwiseMax.JoinTypeRule: the join type is INNER exactly when `required` is set only when the definition does not itself ask for INNER.
- GroupwiseMaxRewrite.RenameOrdersExact: renaming is exact only when no new key clashes. Otherwise RenameOrdersOnlyRenamed gives the weaker guarantee.
- The `subquery_order` option only reaches the sort the host adds while building, so it lives in the `build` parameter.
- A NULL `subquery_sort` and FALSE `subquery_view` and `subquery_namespace` are read as the empty string. `empty()` and truthiness agree on them.
