/**
  Property lookup on the plain object that holds the catalog, as JavaScript
  performs it: a key the object does not own is looked up on
  Object.prototype, whose methods are functions with a `length` (their
  declared parameter count). The quote count query reads `length` of
  whatever the lookup yields, so an inherited method name counts as a
  category with quotes.
 */
module JsRecordLookup {
  import opened QuoteTypes
  import QuoteService

  /**
    What `record[key]` yields: an own category list, an inherited method,
    Object.prototype itself (through the inherited `__proto__` accessor,
    an object without `length`), or undefined.
   */
  datatype Property = Own(quotes: seq<Quote>) | InheritedMethod(length: nat) | PrototypeObject | Missing

  /** The key whose inherited accessor yields Object.prototype. */
  const ProtoKey: string := "__proto__"

  /** Methods a plain object inherits from Object.prototype, with their `length`. */
  const InheritedMethodLengths: map<string, nat> :=
    map[
      "constructor" := 1, "hasOwnProperty" := 1, "isPrototypeOf" := 1,
      "propertyIsEnumerable" := 1, "toLocaleString" := 0, "toString" := 0,
      "valueOf" := 0, "__defineGetter__" := 2, "__defineSetter__" := 2,
      "__lookupGetter__" := 1, "__lookupSetter__" := 1
    ]

  /** Own keys win; otherwise the prototype's members are found; anything else is undefined. */
  function LookupProperty(catalog: Catalog, key: string): (p: Property)
    ensures key in catalog ==> p == Own(catalog[key])
    ensures p.Missing? <==> key !in catalog && key !in InheritedMethodLengths && key != ProtoKey
    ensures p.InheritedMethod? <==> key !in catalog && key in InheritedMethodLengths
    ensures p.InheritedMethod? ==> p.length == InheritedMethodLengths[key]
    ensures p.PrototypeObject? <==> key !in catalog && key == ProtoKey
  {
    if key in catalog then Own(catalog[key])
    else if key in InheritedMethodLengths then InheritedMethod(InheritedMethodLengths[key])
    else if key == ProtoKey then PrototypeObject
    else Missing
  }

  /**
    The selector's guard as written, `!value || value.length === 0`: only
    undefined and values whose `length` is 0 are refused; arrays, functions
    and objects are truthy, and a missing `length` is not 0.
   */
  function GuardRefusesAsWritten(p: Property): (refused: bool)
    ensures refused <==> p.Missing? || (p.Own? && |p.quotes| == 0)
                         || (p.InheritedMethod? && p.length == 0)
  {
    match p
    case Own(qs) => |qs| == 0
    case InheritedMethod(length) => length == 0
    case PrototypeObject => false
    case Missing => true
  }

  /**
    Names the catalog does not own that pass the guard anyway: "__proto__"
    and every inherited method with a nonzero `length`. The selector then
    calls `filter` on a value that has none, which throws.
   */
  lemma GuardAdmitsInheritedNames(catalog: Catalog, key: string)
    requires key !in catalog
    ensures !GuardRefusesAsWritten(LookupProperty(catalog, key))
            <==> key == ProtoKey || (key in InheritedMethodLengths && InheritedMethodLengths[key] > 0)
  {
  }

  /** The count query as written: `length` of the looked-up value, or 0 when it is undefined. */
  function QuoteCountAsWritten(catalog: Catalog, category: string): (n: nat)
    ensures category in catalog ==> n == QuoteService.GetQuoteCount(catalog, category)
    ensures category !in catalog && category !in InheritedMethodLengths ==> n == 0
    ensures category !in catalog && category in InheritedMethodLengths
            ==> n == InheritedMethodLengths[category]
  {
    match LookupProperty(catalog, category)
    case Own(qs) => |qs|
    case InheritedMethod(length) => length
    case PrototypeObject => 0
    case Missing => 0
  }

  /** On a catalog without a "hasOwnProperty" category the count as written is 1, the own-key count 0. */
  lemma InheritedNameIsCounted()
    ensures QuoteCountAsWritten(map[], "hasOwnProperty") == 1
    ensures QuoteService.GetQuoteCount(map[], "hasOwnProperty") == 0
  {
  }

  /** The two counts differ exactly on inherited method names with a nonzero `length` that the catalog does not own. */
  lemma CountsDifferOnlyOnInheritedNames(catalog: Catalog, category: string)
    ensures QuoteCountAsWritten(catalog, category) != QuoteService.GetQuoteCount(catalog, category)
            <==> (category !in catalog && category in InheritedMethodLengths
                  && InheritedMethodLengths[category] > 0)
  {
  }
}
