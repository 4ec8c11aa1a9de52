/** A variable that can have a value of its own in each buffer: a default, and a map from buffers to
    their values. */
module LocalValues {

  datatype Value = Unbound | Nil | Datum(n: int)

  /** Plain: never made local.  Some: local where make-local-variable said so
      (Lisp_Some_Buffer_Local_Value).  All: setting it makes it local (Lisp_Buffer_Local_Value). */
  datatype Kind = Plain | Some | All

  datatype Result = Ok(value: Value) | VoidVariable | SettingConstant | MayNotBeLocal | Done

  // ---- the specification: one variable seen from all buffers ----

  datatype Var<B> = Var(kind: Kind, dflt: Value, locals: map<B, Value>)

  ghost function Get<B>(v: Var<B>, b: B): Value {
    if b in v.locals then v.locals[b] else v.dflt
  }

  ghost function Read(x: Value): Result {
    if x == Unbound then VoidVariable else Ok(x)
  }

  ghost function SpecSet<B>(v: Var<B>, b: B, x: Value): Var<B> {
    if v.kind == All || b in v.locals then v.(locals := v.locals[b := x]) else v.(dflt := x)
  }

  ghost function Bound(x: Value): Value {
    if x == Unbound then Nil else x
  }

  ghost function SpecMakeAll<B>(v: Var<B>): Var<B> {
    match v.kind
    case All => v
    case Some => v.(kind := All)
    case Plain => Var(All, Bound(v.dflt), map[])
  }

  ghost function SpecMakeLocal<B>(v: Var<B>, b: B): Var<B> {
    match v.kind
    case All => v
    case Some => if b in v.locals then v else v.(locals := v.locals[b := v.dflt])
    case Plain => Var(Some, Bound(v.dflt), map[b := Bound(v.dflt)])
  }

  ghost function SpecKillLocal<B>(v: Var<B>, b: B): Var<B> {
    v.(locals := v.locals - {b})
  }
}
