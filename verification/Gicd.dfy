/**
 The distributor registers the irq-unclaimed test reads and writes, with the layout of
 section 4.3 of the ARM Generic Interrupt Controller Architecture Specification
 version 2: one bit per interrupt, 32 to a word, and write-one set and clear banks.
 */
module Gicd {
  const ISENABLER: nat := 0x100
  const ISPENDR: nat := 0x200
  const ICPENDR: nat := 0x280
  const ISACTIVER: nat := 0x300

  /** Bytes from one of the banks above to the end of it. */
  const BANK_BYTES: nat := 0x80

  predicate IsBank(reg: nat) {
    reg == ISENABLER || reg == ISPENDR || reg == ICPENDR || reg == ISACTIVER
  }

  /** The number of interrupt lines, from the low five bits of GICD_TYPER. */
  function LineCount(typer: nat): nat {
    32 * (typer % 32 + 1)
  }

  /** The word the test uses for a register bank and an interrupt. */
  function WordIndex(reg: nat, irq: nat): nat {
    reg / 4 + irq / 32
  }

  function ShiftRight(word: nat, k: nat): nat {
    if k == 0 then word else ShiftRight(word / 2, k - 1)
  }

  function ShiftLeft(word: nat, k: nat): nat {
    if k == 0 then word else 2 * ShiftLeft(word, k - 1)
  }

  function BitAt(word: nat, k: nat): nat {
    ShiftRight(word, k) % 2
  }

  /** A word with bit k set when interrupt base + k is in the set. */
  function Pack(lines: set<nat>, base: nat, width: nat): nat
    decreases width
  {
    if width == 0 then 0
    else (if base in lines then 1 else 0) + 2 * Pack(lines, base + 1, width - 1)
  }

  function Word(lines: set<nat>, base: nat): nat {
    Pack(lines, base, 32)
  }

  lemma WordBit(lines: set<nat>, base: nat, k: nat)
    requires k < 32
    ensures BitAt(Word(lines, base), k) == if base + k in lines then 1 else 0
  {
    PackedBit(lines, base, 32, k);
  }

  lemma {:induction false} PackedBit(lines: set<nat>, base: nat, width: nat, k: nat)
    requires k < width
    ensures BitAt(Pack(lines, base, width), k) == if base + k in lines then 1 else 0
    decreases width
  {
    if k > 0 {
      PackedBit(lines, base + 1, width - 1, k - 1);
    }
  }

  lemma {:induction false} OneShifted(k: nat, j: nat)
    ensures BitAt(ShiftLeft(1, k), j) == if j == k then 1 else 0
  {
    if k > 0 && j > 0 {
      OneShifted(k - 1, j - 1);
    } else if j > 0 {
      ZeroShifted(j - 1);
      assert ShiftRight(1, j) == ShiftRight(0, j - 1);
    }
  }

  lemma {:induction false} ZeroShifted(k: nat)
    ensures ShiftRight(0, k) == 0
  {
    if k > 0 {
      ZeroShifted(k - 1);
    }
  }

  /** A shift by less than 32 stays inside a 32-bit word. */
  lemma {:induction false} ShiftFits(k: nat)
    requires k < 32
    ensures ShiftLeft(1, k) <= 0x8000_0000
  {
    ShiftRoom(k, 31);
    assert ShiftLeft(1, 4) == 0x10;
    assert ShiftLeft(1, 8) == 0x100;
    assert ShiftLeft(1, 12) == 0x1000;
    assert ShiftLeft(1, 16) == 0x1_0000;
    assert ShiftLeft(1, 20) == 0x10_0000;
    assert ShiftLeft(1, 24) == 0x100_0000;
    assert ShiftLeft(1, 28) == 0x1000_0000;
    assert ShiftLeft(1, 31) == 0x8000_0000;
  }

  lemma {:induction false} ShiftRoom(j: nat, k: nat)
    requires j <= k
    ensures ShiftLeft(1, j) <= ShiftLeft(1, k)
    decreases k
  {
    if j < k {
      ShiftRoom(j, k - 1);
    }
  }

  /**
   Every implemented interrupt's bit is inside its bank, and the pair of word and bit
   tells both the bank and the interrupt: no two of them share a bit.
   */
  lemma AddressesAreDistinct(typer: nat, reg: nat, irq: nat, reg': nat, irq': nat)
    requires IsBank(reg) && IsBank(reg')
    requires irq < LineCount(typer) && irq' < LineCount(typer)
    ensures reg <= 4 * WordIndex(reg, irq) < reg + BANK_BYTES
    ensures WordIndex(reg, irq) == WordIndex(reg', irq') ==> reg == reg' && irq / 32 == irq' / 32
    ensures WordIndex(reg, irq) == WordIndex(reg', irq') && irq % 32 == irq' % 32 ==> irq == irq'
  {
  }

  /** The interrupts named by a value written to the word that starts at base. */
  function Named(base: nat, value: nat): set<nat> {
    set k | 0 <= k < 32 && BitAt(value, k) == 1 :: base + k
  }

  class Distributor {
    const typer: nat
    var enabled: set<nat>
    var pending: set<nat>
    var active: set<nat>

    constructor (typer: nat)
      ensures this.typer == typer && enabled == {} && pending == {} && active == {}
    {
      this.typer := typer;
      enabled, pending, active := {}, {}, {};
    }

    /** The lines that read as one in a bank; both pending banks read the pending state. */
    function Lines(reg: nat): set<nat>
      requires IsBank(reg)
      reads this
    {
      if reg == ISENABLER then enabled
      else if reg == ISACTIVER then active
      else pending
    }

    /** The device's answer to a word read. */
    method ReadWord(index: nat, ghost reg: nat) returns (word: nat)
      requires IsBank(reg) && reg <= 4 * index < reg + BANK_BYTES
      ensures word == Word(Lines(reg), 32 * (index - reg / 4))
    {
      hide Word;
      var byte := 4 * index;
      if byte < ISENABLER + BANK_BYTES {
        word := Word(enabled, 32 * (index - ISENABLER / 4));
      } else if byte < ISPENDR + BANK_BYTES {
        word := Word(pending, 32 * (index - ISPENDR / 4));
      } else if byte < ICPENDR + BANK_BYTES {
        word := Word(pending, 32 * (index - ICPENDR / 4));
      } else {
        word := Word(active, 32 * (index - ISACTIVER / 4));
      }
    }

    /** The device's reaction to a word write: ones act, zeros are ignored. */
    method WriteWord(index: nat, value: nat, ghost reg: nat)
      requires IsBank(reg) && reg <= 4 * index < reg + BANK_BYTES
      requires value < 0x1_0000_0000
      modifies this
      ensures var named := Named(32 * (index - reg / 4), value);
              && enabled == (if reg == ISENABLER then old(enabled) + named else old(enabled))
              && active == (if reg == ISACTIVER then old(active) + named else old(active))
              && pending == (if reg == ISPENDR then old(pending) + named
                             else if reg == ICPENDR then old(pending) - named
                             else old(pending))
    {
      var byte := 4 * index;
      if byte < ISENABLER + BANK_BYTES {
        enabled := enabled + Named(32 * (index - ISENABLER / 4), value);
      } else if byte < ISPENDR + BANK_BYTES {
        pending := pending + Named(32 * (index - ISPENDR / 4), value);
      } else if byte < ICPENDR + BANK_BYTES {
        pending := pending - Named(32 * (index - ICPENDR / 4), value);
      } else {
        active := active + Named(32 * (index - ISACTIVER / 4), value);
      }
    }

    /** The test's single-bit read: one exactly when the line is set in that bank. */
    method Bit(reg: nat, irq: nat) returns (bit: nat)
      requires IsBank(reg) && irq < LineCount(typer)
      ensures bit == if irq in Lines(reg) then 1 else 0
    {
      hide Word;
      AddressesAreDistinct(typer, reg, irq, reg, irq);
      var word := ReadWord(WordIndex(reg, irq), reg);
      WordBit(Lines(reg), 32 * (irq / 32), irq % 32);
      bit := BitAt(word, irq % 32);
    }

    /** The test's single-bit write: it pends, clears or enables that line and touches no other. */
    method SetBit(reg: nat, irq: nat)
      requires IsBank(reg) && irq < LineCount(typer)
      modifies this
      ensures reg == ISPENDR ==> pending == old(pending) + {irq} && enabled == old(enabled) && active == old(active)
      ensures reg == ICPENDR ==> pending == old(pending) - {irq} && enabled == old(enabled) && active == old(active)
      ensures reg == ISENABLER ==> enabled == old(enabled) + {irq} && pending == old(pending) && active == old(active)
      ensures reg == ISACTIVER ==> active == old(active) + {irq} && pending == old(pending) && enabled == old(enabled)
    {
      AddressesAreDistinct(typer, reg, irq, reg, irq);
      NamesOnly(irq);
      ShiftFits(irq % 32);
      WriteWord(WordIndex(reg, irq), ShiftLeft(1, irq % 32), reg);
    }
  }

  lemma NamesOnly(irq: nat)
    ensures Named(32 * (irq / 32), ShiftLeft(1, irq % 32)) == {irq}
  {
    forall k | 0 <= k < 32
      ensures BitAt(ShiftLeft(1, irq % 32), k) == if k == irq % 32 then 1 else 0
    {
      OneShifted(irq % 32, k);
    }
    var base, k := 32 * (irq / 32), irq % 32;
    assert irq == base + k;
    assert BitAt(ShiftLeft(1, k), k) == 1;
    assert forall j | j in Named(base, ShiftLeft(1, k)) :: j == irq;
  }
}
