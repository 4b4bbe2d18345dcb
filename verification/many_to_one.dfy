/**
 * The many-to-one filter: a filter for columns with several values per row
 * (terms of a node, roles of a user). Its operators and its table joining are
 * delegated to a helper object, whose own work is not part of this model:
 * the helper records the calls it receives, and its option definitions are a
 * parameter.
 */
module ManyToOneFilter {
  import opened PhpValues
  import opened HandlerOptions

  /** An entry of the operator table; the title and short forms are the untranslated strings. */
  datatype OperatorInfo = OperatorInfo(
    title: string,
    short: string,
    shortSingle: Option<string>,
    methodName: string,
    values: nat,
    ensureMyTable: Option<string>)

  function HelperOperator(title: string, short: string, shortSingle: string): OperatorInfo
  {
    OperatorInfo(title, short, Some(shortSingle), "op_helper", 1, Some("helper"))
  }

  /** The three operators every many-to-one filter offers. */
  function ListOperators(): seq<Entry<OperatorInfo>>
  {
    [Entry("or", HelperOperator("Is one of", "or", "=")),
     Entry("and", HelperOperator("Is all of", "and", "=")),
     Entry("not", HelperOperator("Is none of", "not", "<>"))]
  }

  /** The NULL tests a definition with `allow empty` adds. */
  function EmptyTests(): seq<Entry<OperatorInfo>>
  {
    [Entry("empty", OperatorInfo("Is empty (NULL)", "empty", None, "op_empty", 0, None)),
     Entry("not empty", OperatorInfo("Is not empty (NOT NULL)", "not empty", None, "op_empty", 0, None))]
  }

  /** `operators()`: the list operators, then, when the definition allows empty, `+` the NULL tests. */
  function Operators(allowEmpty: Value): seq<Entry<OperatorInfo>>
  {
    if !Empty(allowEmpty) then Union(ListOperators(), EmptyTests()) else ListOperators()
  }

  /** The three list operators are always there, run `op_helper` on one value and join through the helper. */
  lemma {:induction false} BaseOperators(allowEmpty: Value, op: string)
    requires op in {"or", "and", "not"}
    ensures HasKey(Operators(allowEmpty), op)
    ensures var info := Lookup(Operators(allowEmpty), op).value;
      info.methodName == "op_helper" && info.values == 1 && info.ensureMyTable == Some("helper")
  {
    var base := ListOperators();
    var i := if op == "or" then 0 else if op == "and" then 1 else 2;
    assert base[i].key == op;
    if !Empty(allowEmpty) {
      var extra := EmptyTests();
      UnionKeys(base, extra, op);
    }
  }

  /** `empty` and `not empty` are there exactly when the definition allows empty, and then run `op_empty` on no value. */
  lemma {:induction false} EmptyOperators(allowEmpty: Value, op: string)
    requires op in {"empty", "not empty"}
    ensures HasKey(Operators(allowEmpty), op) <==> !Empty(allowEmpty)
    ensures HasKey(Operators(allowEmpty), op) ==>
      var info := Lookup(Operators(allowEmpty), op).value;
      info.methodName == "op_empty" && info.values == 0 && info.ensureMyTable.None?
  {
    var base := ListOperators();
    var extra := EmptyTests();
    assert !HasKey(base, op) by {
      forall i | 0 <= i < |base| ensures base[i].key != op {
      }
    }
    if !Empty(allowEmpty) {
      UnionKeys(base, extra, op);
      var j := if op == "empty" then 0 else 1;
      assert extra[j].key == op;
      assert DistinctKeys(extra);
    }
  }

  /** Nothing but the five operators is ever in the table. */
  lemma {:induction false} OperatorKeys(allowEmpty: Value, op: string)
    ensures HasKey(Operators(allowEmpty), op) <==>
      op in {"or", "and", "not"} || (!Empty(allowEmpty) && op in {"empty", "not empty"})
  {
    var base := ListOperators();
    var extra := EmptyTests();
    assert HasKey(base, op) <==> op in {"or", "and", "not"} by {
      if op in {"or", "and", "not"} {
        var i := if op == "or" then 0 else if op == "and" then 1 else 2;
        assert base[i].key == op;
      }
    }
    if !Empty(allowEmpty) {
      UnionKeys(base, extra, op);
      assert HasKey(extra, op) <==> op in {"empty", "not empty"} by {
        if op in {"empty", "not empty"} {
          var j := if op == "empty" then 0 else 1;
          assert extra[j].key == op;
        }
      }
    }
  }

  /** Who `ensure_my_table()` goes to. */
  datatype EnsureTarget = ToHelper | ToParent

  /** The helper takes over exactly when the operator's entry names it. */
  function EnsureMyTableTarget(operators: seq<Entry<OperatorInfo>>, operator: string): EnsureTarget
  {
    var entry := Lookup(operators, operator);
    if entry.Some? && entry.value.ensureMyTable == Some("helper") then ToHelper else ToParent
  }

  /** The list operators join through the helper; the empty tests and unknown operators through the parent. */
  lemma EnsureMyTableDispatch(allowEmpty: Value, operator: string)
    ensures EnsureMyTableTarget(Operators(allowEmpty), operator) == ToHelper <==> operator in {"or", "and", "not"}
  {
    OperatorKeys(allowEmpty, operator);
    if operator in {"or", "and", "not"} {
      BaseOperators(allowEmpty, operator);
    } else if operator in {"empty", "not empty"} {
      EmptyOperators(allowEmpty, operator);
    }
  }

  /** `$options['operator']['default'] = 'or'; $options['value']['default'] = array();`. */
  function OwnDefaults(parent: OptionDefinitions): (r: OptionDefinitions)
    ensures DefaultOf(r, "operator") == Some(Str("or"))
    ensures DefaultOf(r, "value") == Some(List([]))
    ensures forall k :: k != "operator" && k != "value" ==> Lookup(r, k) == Lookup(parent, k)
  {
    SetDefault(SetDefault(parent, "operator", Str("or")), "value", List([]))
  }

  /** A call the filter makes on its helper. */
  datatype HelperCall = DefineOptions | EnsureHelperTable | AddFilter

  /** The many-to-one helper, as the calls it receives; its option definitions are given. */
  class ManyToOneHelper {
    var calls: seq<HelperCall>
    const extend: OptionDefinitions -> OptionDefinitions

    constructor (extend: OptionDefinitions -> OptionDefinitions)
      ensures calls == [] && this.extend == extend
    {
      calls := [];
      this.extend := extend;
    }

    /** `option_definition($options)`: adds the helper's own options. */
    method OptionDefinition(defs: OptionDefinitions) returns (r: OptionDefinitions)
      modifies this
      ensures r == extend(defs)
      ensures calls == old(calls) + [DefineOptions]
    {
      calls := calls + [DefineOptions];
      r := extend(defs);
    }

    method EnsureMyTable()
      modifies this
      ensures calls == old(calls) + [EnsureHelperTable]
    {
      calls := calls + [EnsureHelperTable];
    }

    method AddFilterCall()
      modifies this
      ensures calls == old(calls) + [AddFilter]
    {
      calls := calls + [AddFilter];
    }
  }

  /** The many-to-one filter handler. */
  class ManyToOne {
    var helper: ManyToOneHelper?
    var operator: string
    var value: Value
    /** The definition's `allow empty`. */
    var allowEmpty: Value
    /** How often the parent's `ensure_my_table()` ran. */
    var parentEnsureCalls: nat
    /** The helper's option definitions, for helpers this handler creates. */
    const helperOptions: OptionDefinitions -> OptionDefinitions

    constructor (allowEmpty: Value, helperOptions: OptionDefinitions -> OptionDefinitions)
      ensures helper == null && this.allowEmpty == allowEmpty && this.helperOptions == helperOptions
      ensures operator == "" && value == Null && parentEnsureCalls == 0
    {
      helper := null;
      this.allowEmpty := allowEmpty;
      this.helperOptions := helperOptions;
      operator := "";
      value := Null;
      parentEnsureCalls := 0;
    }

    /** `init()`: the parent takes the operator and value from the options, then a new helper is attached. */
    method Init(operator: string, value: Value)
      modifies this
      ensures this.operator == operator && this.value == value
      ensures helper != null && fresh(helper) && helper.calls == [] && helper.extend == helperOptions
      ensures allowEmpty == old(allowEmpty) && parentEnsureCalls == old(parentEnsureCalls)
    {
      this.operator := operator;
      this.value := value;
      helper := new ManyToOneHelper(helperOptions);
    }

    /**
     * `option_definition()`: the list defaults, then the helper's options,
     * through the attached helper or, before `init()`, a new one.
     */
    method OptionDefinition(parent: OptionDefinitions) returns (r: OptionDefinitions)
      modifies helper
      ensures helper != null ==> r == helper.extend(OwnDefaults(parent))
      ensures helper == null ==> r == helperOptions(OwnDefaults(parent))
      ensures helper != null ==> helper.calls == old(helper.calls) + [DefineOptions]
    {
      var options := SetDefault(parent, "operator", Str("or"));
      options := SetDefault(options, "value", List([]));
      if helper != null {
        r := helper.OptionDefinition(options);
      } else {
        var h := new ManyToOneHelper(helperOptions);
        r := h.OptionDefinition(options);
      }
    }

    /** `ensure_my_table()`: to the helper when the operator's entry says so, else to the parent. */
    method EnsureMyTable()
      requires EnsureMyTableTarget(Operators(allowEmpty), operator) == ToHelper ==> helper != null
      modifies helper, this`parentEnsureCalls
      ensures EnsureMyTableTarget(Operators(allowEmpty), operator) == ToHelper ==>
        helper.calls == old(helper.calls) + [EnsureHelperTable] && parentEnsureCalls == old(parentEnsureCalls)
      ensures EnsureMyTableTarget(Operators(allowEmpty), operator) == ToParent ==>
        parentEnsureCalls == old(parentEnsureCalls) + 1 && (helper != null ==> helper.calls == old(helper.calls))
    {
      var info := Operators(allowEmpty);
      var entry := Lookup(info, operator);
      if entry.Some? && entry.value.ensureMyTable == Some("helper") {
        helper.EnsureMyTable();
        return;
      }
      parentEnsureCalls := parentEnsureCalls + 1;
    }

    /** `op_helper()`: nothing for an empty value, otherwise one `add_filter()` on the helper. */
    method OpHelper()
      requires !Empty(value) ==> helper != null
      modifies helper
      ensures Empty(value) ==> helper != null ==> helper.calls == old(helper.calls)
      ensures !Empty(value) ==> helper.calls == old(helper.calls) + [AddFilter]
    {
      if Empty(value) {
        return;
      }
      helper.AddFilterCall();
    }
  }
}
