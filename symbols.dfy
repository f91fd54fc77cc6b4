/**
 * The read-only Doxygen symbol index behind `get_doxygen_root()`, reduced to
 * what cross-reference resolution reads: the first element carrying a given
 * `id`, its tag, and the names a `memberdef`, `compounddef` or `enumvalue`
 * exposes.
 */
module Symbols {
  import opened Wrappers
  import opened Xml

  /** The element a reference id points at. */
  datatype Entry =
    | MemberDef(compoundName: string, memberName: string)  // enclosing compoundname, `./name`
    | CompoundDef(ownName: Option<string>)                 // text of `./name`, None if absent
    | EnumValue(ownName: Option<string>)
    | OtherElement(tag: string)                      // any other element with that id

  /** id -> first element (in document order) with that id. Built once, never changed. */
  type SymbolIndex = map<string, Entry>

  /** What a reference resolves to. */
  datatype Target =
    | Unresolved                  // no element has the id
    | Resolved(realName: string)  // a member, a compound or an enum value
    | Unsupported                 // an element of another kind

  /** The id searched for: `node.get('refid')`, which `%s` turns into "None" when absent. */
  function RefKey(n: Node): string {
    Get(n, "refid").GetOr("None")
  }

  /**
   * Resolution of a reference id: members are qualified by their compound,
   * compounds and enum values use their own name (empty if they have none).
   */
  function Resolve(idx: SymbolIndex, refid: string): (t: Target)
    ensures t.Unresolved? <==> refid !in idx
    ensures refid in idx && idx[refid].MemberDef? ==>
              t == Resolved(idx[refid].compoundName + "::" + idx[refid].memberName)
    ensures refid in idx && (idx[refid].CompoundDef? || idx[refid].EnumValue?) ==>
              t == Resolved(idx[refid].ownName.GetOr(""))
    ensures t.Unsupported? <==> refid in idx && idx[refid].OtherElement?
  {
    if refid !in idx then Unresolved
    else
      match idx[refid]
      case MemberDef(parent, name) => Resolved(parent + "::" + name)
      case CompoundDef(name) => Resolved(name.GetOr(""))
      case EnumValue(name) => Resolved(name.GetOr(""))
      case OtherElement(_) => Unsupported
  }
}
