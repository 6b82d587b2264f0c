/** The s-expressions that the compiler passes and the macro expander work on. */
module Cells {

  datatype Cell =
    | Sym(name: string)
    | Num(n: real)
    | Bool(b: bool)
    | Str(s: string)
    | Nil
    | Pair(car: Cell, cdr: Cell)

  /** `cell_car` and `cell_cdr`; the runtime aborts where these answer `Nil`. */
  function Car(c: Cell): (r: Cell) { if c.Pair? then c.car else Nil }

  function Cdr(c: Cell): (r: Cell) { if c.Pair? then c.cdr else Nil }

  /** Number of pairs along the spine. */
  function Length(c: Cell): (n: nat) {
    if c.Pair? then 1 + Length(c.cdr) else 0
  }
}
