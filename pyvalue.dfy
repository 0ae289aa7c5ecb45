/** The Python objects that flow through headers and command-line namespaces, with the
    two things the code asks of them: truthiness (`if x:`) and `str(x)`. A float is
    carried by its `repr` text, which is exactly what `str` prints; floating-point
    arithmetic never happens on these values. */
module PyValue {
  import opened PyText

  type FloatText = s: string | |s| > 0 witness "0.0"

  datatype Value =
    | Null
    | Bool(b: bool)
    | Int(i: int)
    | Float(repr: FloatText)
    | Str(s: string)
    | Dict(items: seq<(string, Value)>)

  /** `bool(v)`. */
  predicate Truthy(v: Value)
  {
    match v
    case Null => false
    case Bool(b) => b
    case Int(i) => i != 0
    case Float(r) => r != "0.0" && r != "-0.0"
    case Str(s) => s != ""
    case Dict(items) => items != []
  }

  /** `str(v)`. Quotes inside strings are not escaped in the dictionary form. */
  function Show(v: Value): string
    decreases v, 1
  {
    match v
    case Null => "None"
    case Bool(b) => if b then "True" else "False"
    case Int(i) => IntToString(i)
    case Float(r) => r
    case Str(s) => s
    case Dict(items) => "{" + ShowItems(v, items) + "}"
  }

  function Repr(v: Value): string
    decreases v, 2
  {
    if v.Str? then "'" + v.s + "'" else Show(v)
  }

  function ShowItems(d: Value, items: seq<(string, Value)>): string
    requires d.Dict? && items <= d.items
    decreases d, 0, |items|
  {
    if items == [] then ""
    else
      var last := items[|items| - 1];
      assert last in d.items;
      var entry := "'" + last.0 + "': " + Repr(last.1);
      if |items| == 1 then entry else ShowItems(d, items[..|items| - 1]) + ", " + entry
  }

  /** `str(v)` is empty exactly for the empty string, so `if str(v):` fails only for `''`. */
  lemma ShowEmptyIffEmptyString(v: Value)
    ensures Show(v) == "" <==> v == Str("")
  {
    match v
    case Int(i) =>
      assert |IntToString(i)| >= 1;
    case _ =>
  }
}
