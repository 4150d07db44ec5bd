/** JSON values as the server reads them back from a signed token. */
module Json {
  import opened Outcomes

  /** Member names. Those the program reads have a constructor each; any other text is `Named`. */
  datatype Name =
    | SUB | AUD | ISS | IAT | EXP | NBF | JTI
    | CLIENT_ID | SCOPE | ACT | TASK_ID | MAY_ACT | DELEGATION_DEPTH | TENANT
    | ALG | TYP | KID | KTY | CRV
    | Named(text: string)

  datatype Value =
    | Null
    | Bool(b: bool)
    | Int(n: int)
    | Float(r: real)
    | Str(s: string)
    | List(items: seq<Value>)
    | Object(members: map<Name, Value>)

  type Claims = map<Name, Value>

  /** The member when present, for comparing two claim sets member by member. */
  function Member(claims: Claims, name: Name): Option<Value> {
    if name in claims then Some(claims[name]) else None
  }

  /** `dict.get`: an absent member and a null one read alike. */
  function Get(claims: Claims, name: Name): Value {
    match Member(claims, name)
    case Some(v) => v
    case None => Null
  }

  predicate IsNonEmptyText(v: Value) {
    v.Str? && v.s != ""
  }
}
