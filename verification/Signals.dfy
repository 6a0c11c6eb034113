/** Signals, and how many of them a daemon's channel holds. */
module Signals {
  const CAPACITY := 16

  datatype Signal = Hup | Int | Quit | Term | Kill | Usr1 | Usr2 | Stop | Cont {
    function Number(): nat {
      match this
      case Hup => 1
      case Int => 2
      case Quit => 3
      case Kill => 9
      case Usr1 => 10
      case Usr2 => 12
      case Term => 15
      case Cont => 18
      case Stop => 19
    }
  }

  /** A daemon's channel holds sixteen signals, and the numbers are those of Unix. */
  lemma UnixNumbers()
    ensures CAPACITY == 16
    ensures Hup.Number() == 1 && Int.Number() == 2 && Quit.Number() == 3 && Kill.Number() == 9
    ensures Usr1.Number() == 10 && Usr2.Number() == 12 && Term.Number() == 15
    ensures Cont.Number() == 18 && Stop.Number() == 19
  {}
}
