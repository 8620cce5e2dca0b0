/** The counter card's icon selection: `IconComponents[icon] || IconComponents.shield`.

    `IconComponents` is a plain JavaScript object literal, so an index with a
    name it does not own still finds the members every object inherits from
    `Object.prototype` (`toString`, `constructor`, ...). Those are truthy, so
    the `|| shield` fallback does not apply to them. `LookupAsWritten` models
    that; `ResolveIcon` is the intended lookup, with the fallback for every
    name that is not one of the four icons. */
module Icons {
  import opened Wrappers

  datatype Icon = Shield | Users | Trending | Award

  /** The own keys of `IconComponents`. */
  function OwnIcon(name: string): Option<Icon>
  {
    match name
    case "shield" => Some(Shield)
    case "users" => Some(Users)
    case "trending" => Some(Trending)
    case "award" => Some(Award)
    case _ => None
  }

  /** The property names every plain object inherits from `Object.prototype`
      (section 20.1.3 of ECMA-262). */
  const InheritedNames: set<string> := {
    "constructor", "hasOwnProperty", "isPrototypeOf", "propertyIsEnumerable",
    "toLocaleString", "toString", "valueOf", "__proto__",
    "__defineGetter__", "__defineSetter__", "__lookupGetter__", "__lookupSetter__"
  }

  /** What the card renders as its icon component. */
  datatype Rendered = Glyph(icon: Icon) | NotAnIcon(member: string)

  /** `IconComponents[icon] || IconComponents.shield` as written; a missing
      prop indexes the key "undefined". */
  function LookupAsWritten(name: Option<string>): (r: Rendered)
    ensures r.NotAnIcon? ==> name.Some? && name.value in InheritedNames
    ensures name.Some? && OwnIcon(name.value).Some? ==> r == Glyph(OwnIcon(name.value).value)
  {
    var key := if name.Some? then name.value else "undefined";
    if OwnIcon(key).Some? then Glyph(OwnIcon(key).value)
    else if key in InheritedNames then NotAnIcon(key)
    else Glyph(Shield)
  }

  /** The lookup as intended: the named icon for the four known names, `shield`
      for any other or missing name. */
  function ResolveIcon(name: Option<string>): (r: Icon)
    ensures name == Some("shield") ==> r == Shield
    ensures name == Some("users") ==> r == Users
    ensures name == Some("trending") ==> r == Trending
    ensures name == Some("award") ==> r == Award
    ensures name.None? || name.value !in {"shield", "users", "trending", "award"} ==> r == Shield
  {
    if name.Some? && OwnIcon(name.value).Some? then OwnIcon(name.value).value else Shield
  }

  /** The lookup as written agrees with the intended one on every name that
      is not an inherited member, and fails to fall back on those. */
  lemma LookupAsWrittenAgrees(name: Option<string>)
    ensures name.None? || name.value !in InheritedNames
            ==> LookupAsWritten(name) == Glyph(ResolveIcon(name))
    ensures name.Some? && name.value in InheritedNames
            ==> LookupAsWritten(name) == NotAnIcon(name.value)
  {
    if name.Some? && name.value in InheritedNames {
      assert OwnIcon(name.value).None?;
    }
  }

  /** `icon="toString"` renders `Object.prototype.toString` instead of the
      `shield` fallback. */
  lemma ToStringHasNoFallback()
    ensures LookupAsWritten(Some("toString")) == NotAnIcon("toString")
    ensures ResolveIcon(Some("toString")) == Shield
  {
  }
}
