/**
 * Handler option definitions: `option_definition()` returns an ordered array
 * from option name to its description, of which the model keeps the default
 * value and the `'bool'` flag.
 */
module HandlerOptions {
  import opened PhpValues

  /** `array('default' => ..., 'bool' => TRUE)`. */
  datatype OptionInfo = OptionInfo(defaultValue: Value, isBool: bool)

  type OptionDefinitions = seq<Entry<OptionInfo>>

  /** The default an option definition gives `name`, if it defines it. */
  function DefaultOf(defs: OptionDefinitions, name: string): (r: Option<Value>)
    ensures r.Some? <==> HasKey(defs, name)
  {
    match Lookup(defs, name)
    case Some(info) => Some(info.defaultValue)
    case None => None
  }

  /** `$options[name] = array('default' => d)`, or with `'bool' => TRUE` when `isBool`. */
  function Define(defs: OptionDefinitions, name: string, d: Value, isBool: bool): (r: OptionDefinitions)
    ensures Lookup(r, name) == Some(OptionInfo(d, isBool))
  {
    LookupPut(defs, name, OptionInfo(d, isBool), name);
    Put(defs, name, OptionInfo(d, isBool))
  }

  /** A definition of another name leaves `k` as it was. */
  lemma DefineKeeps(defs: OptionDefinitions, name: string, d: Value, isBool: bool, k: string)
    requires k != name
    ensures Lookup(Define(defs, name, d, isBool), k) == Lookup(defs, k)
  {
    LookupPut(defs, name, OptionInfo(d, isBool), k);
  }

  /** `DefineKeeps` for every other name at once. */
  lemma DefineFrame(defs: OptionDefinitions, name: string, d: Value, isBool: bool)
    ensures forall k :: k != name ==> Lookup(Define(defs, name, d, isBool), k) == Lookup(defs, k)
  {
    forall k | k != name {
      DefineKeeps(defs, name, d, isBool, k);
    }
  }

  /** `$options[name]['default'] = d`: only the default changes; an inherited `'bool'` flag stays. */
  function SetDefault(defs: OptionDefinitions, name: string, d: Value): (r: OptionDefinitions)
    ensures DefaultOf(r, name) == Some(d)
    ensures HasKey(defs, name) ==> Lookup(r, name).value.isBool == Lookup(defs, name).value.isBool
    ensures forall k :: k != name ==> Lookup(r, k) == Lookup(defs, k)
  {
    var isBool := match Lookup(defs, name) case Some(info) => info.isBool case None => false;
    DefineFrame(defs, name, d, isBool);
    Define(defs, name, d, isBool)
  }
}
