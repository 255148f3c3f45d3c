/** The two type-to-style tables of the calendar: the block colour of an item
    (`getTypeColor`) and its badge variant (`getTypeBadgeVariant`). Both look the
    type up in an object literal and fall back with `||` when the lookup is falsy. */
module TypeStyles {

  /** The nine item types both tables list. */
  const KnownTypes: set<string> :=
    {"class", "study", "work", "club", "fitness", "admin", "sleep", "exam", "project"}

  const ColorTable: map<string, string> := map[
    "class" := "bg-blue-500 hover:bg-blue-600",
    "study" := "bg-green-500 hover:bg-green-600",
    "work" := "bg-purple-500 hover:bg-purple-600",
    "club" := "bg-orange-500 hover:bg-orange-600",
    "fitness" := "bg-red-500 hover:bg-red-600",
    "admin" := "bg-gray-400 hover:bg-gray-500",
    "sleep" := "bg-indigo-300 hover:bg-indigo-400",
    "exam" := "bg-yellow-500 hover:bg-yellow-600",
    "project" := "bg-pink-500 hover:bg-pink-600"
  ]

  const DefaultColor: string := "bg-gray-500 hover:bg-gray-600"

  datatype BadgeVariant = Default | Secondary | Destructive | Outline

  const VariantTable: map<string, BadgeVariant> := map[
    "class" := Default,
    "study" := Secondary,
    "work" := Default,
    "club" := Outline,
    "fitness" := Destructive,
    "admin" := Secondary,
    "sleep" := Outline,
    "exam" := Default,
    "project" := Default
  ]

  /** Property names every object literal inherits from `Object.prototype`. A
      bracket lookup `table[key]` with one of them finds the inherited member (a
      function, or the prototype object itself for `__proto__`), which is truthy. */
  const InheritedMembers: set<string> := {
    "constructor", "hasOwnProperty", "isPrototypeOf", "propertyIsEnumerable",
    "toLocaleString", "toString", "valueOf", "__proto__",
    "__defineGetter__", "__defineSetter__", "__lookupGetter__", "__lookupSetter__"
  }

  /** What `table[key] || fallback` yields in JavaScript: a style from the table
      or the fallback, or an inherited prototype member that is not a style at all.
      (Every value in both tables is a non-empty string, so an own entry is never
      falsy.) */
  datatype Looked<V> = Style(style: V) | NotAStyle(member: string)

  function LookupOrAsWritten<V>(table: map<string, V>, key: string, fallback: V): Looked<V> {
    if key in table then Style(table[key])
    else if key in InheritedMembers then NotAStyle(key)
    else Style(fallback)
  }

  /** `getTypeColor` as written, prototype lookups included: a listed type gets
      its colour, an inherited member name gets that member, anything else the
      gray default. */
  function TypeColorAsWritten(kind: string): (r: Looked<string>)
    ensures kind in KnownTypes ==> r == Style(ColorTable[kind])
    ensures kind in InheritedMembers ==> r == NotAStyle(kind)
    ensures kind !in KnownTypes && kind !in InheritedMembers ==> r == Style(DefaultColor)
  {
    LookupOrAsWritten(ColorTable, kind, DefaultColor)
  }

  /** `getTypeBadgeVariant` as written, prototype lookups included. */
  function TypeBadgeVariantAsWritten(kind: string): (r: Looked<BadgeVariant>)
    ensures kind in KnownTypes ==> r == Style(VariantTable[kind])
    ensures kind in InheritedMembers ==> r == NotAStyle(kind)
    ensures kind !in KnownTypes && kind !in InheritedMembers ==> r == Style(Outline)
  {
    LookupOrAsWritten(VariantTable, kind, Outline)
  }

  /** A type named like an inherited member gets neither a colour nor the gray
      default: the class string becomes the text of a function. */
  lemma InheritedTypeBypassesColorDefault()
    ensures TypeColorAsWritten("constructor").NotAStyle?
    ensures TypeColorAsWritten("toString") != Style(DefaultColor)
  {
  }

  /** The same for the badge table: `"valueOf"` gets no variant at all. */
  lemma InheritedTypeBypassesVariantDefault()
    ensures TypeBadgeVariantAsWritten("valueOf").NotAStyle?
  {
  }

  /** `getTypeColor` as intended: total, a listed colour for each of the nine
      types and the gray default for every other string. */
  function TypeColor(kind: string): (r: string)
    ensures kind in KnownTypes ==> r == ColorTable[kind]
    ensures kind !in KnownTypes ==> r == DefaultColor
  {
    if kind in ColorTable then ColorTable[kind] else DefaultColor
  }

  /** `getTypeBadgeVariant` as intended: a listed variant for each of the nine
      types and `'outline'` for every other string. */
  function TypeBadgeVariant(kind: string): (r: BadgeVariant)
    ensures kind in KnownTypes ==> r == VariantTable[kind]
    ensures kind !in KnownTypes ==> r == Outline
  {
    if kind in VariantTable then VariantTable[kind] else Outline
  }

  /** Away from the inherited names, the code as written and the intended
      tables agree on every string. */
  lemma AsWrittenAgreesOffPrototype(kind: string)
    requires kind !in InheritedMembers
    ensures TypeColorAsWritten(kind) == Style(TypeColor(kind))
    ensures TypeBadgeVariantAsWritten(kind) == Style(TypeBadgeVariant(kind))
  {
  }

  /** Every listed type has its own colour, and none of them is the default:
      the colour identifies the type of a listed item. */
  lemma ColorsIdentifyTypes(a: string, b: string)
    requires a in KnownTypes && b in KnownTypes && a != b
    ensures TypeColor(a) != TypeColor(b)
    ensures TypeColor(a) != DefaultColor
  {
  }

  /** The outline badge marks exactly the unlisted types and clubs and sleep. */
  lemma OutlineBadges(kind: string)
    ensures TypeBadgeVariant(kind) == Outline <==> kind !in KnownTypes || kind == "club" || kind == "sleep"
  {
  }
}
