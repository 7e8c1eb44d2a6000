/**
 A context that receives replies (rosette/src/Ctxt.cc:219-234): it stores a reply in a slot, counts
 down an 8-bit counter, and enters the strand pool when the counter reaches zero.
 */
module Contexts {
  import opened Vm
  import ForkJoin
  import opened ObQue

  class Ctxt {
    const argvec: array<Val>
    const regs: array<Val>
    var outstanding: nat

    constructor (argvec: array<Val>, regs: array<Val>, outstanding: nat)
      requires outstanding < 256 && argvec != regs && regs.Length == NUMBER_OF_CTXT_REGS
      ensures Valid() && this.argvec == argvec && this.regs == regs && this.outstanding == outstanding
    {
      this.argvec := argvec;
      this.regs := regs;
      this.outstanding := outstanding;
    }

    ghost predicate Valid()
      reads this
    {
      outstanding < 256 && argvec != regs && regs.Length == NUMBER_OF_CTXT_REGS
    }

    // What replies can change: the arguments, then the registers.
    ghost function Frame(): ForkJoin.Frame
      reads this, argvec, regs
    {
      ForkJoin.Frame(argvec[..] + regs[..], outstanding)
    }

    // The slot of a location; there is none for an argument behind the vector.
    function Slot(loc: Location): nat
      requires loc.ArgReg? || loc.CtxtReg?
    {
      if loc.CtxtReg? then argvec.Length + loc.r
      else if loc.i < argvec.Length then loc.i
      else argvec.Length + regs.Length
    }

    // Ctxt::rcv, for a reply to a register; true reports a store that failed.
    method Rcv(result: Val, loc: Location, pool: ObQue<Ctxt?>) returns (failed: bool)
      requires loc.ArgReg? || (loc.CtxtReg? && loc.r < NUMBER_OF_CTXT_REGS && loc.r != ARGVEC)
      requires Valid() && pool.Valid() && (pool.array_ as object) !in {argvec, regs} && (pool as object) != this
      modifies this, argvec, regs, pool, pool.array_
      ensures Valid() && pool.Valid()
      ensures var r := ForkJoin.Rcv(old(Frame()), result, Slot(loc));
              && Frame() == r.c && failed == r.failed
              && pool.Contents() == (if r.schedule then [this] else []) + old(pool.Contents())
    {
      ghost var was := argvec[..] + regs[..];
      if loc.CtxtReg? {
        regs[loc.r] := result;
      } else if loc.i >= argvec.Length {
        return true;
      } else {
        argvec[loc.i] := result;
      }
      assert argvec[..] + regs[..] == was[Slot(loc) := result];
      outstanding := (outstanding + 255) % 256;
      if outstanding == 0 {
        pool.Enq(this);
      }
      failed := false;
    }
  }
}
