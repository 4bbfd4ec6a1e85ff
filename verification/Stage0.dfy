/** provisioning/provision_stage_0_warp2.py: read the eFuses, burn what is missing, read them
    again and compare. The fuses outlive the run; a set bit can never be cleared. */
module Stage0 {
  import opened Bytes
  import opened Lines
  import opened Identity

  datatype Voltage = Unburned | Burned33 | Unexpected

  /** What the chip keeps between runs. */
  datatype Fuses = Fuses(block3: Block, voltage: Voltage)

  /** The rest of the chip, and the key derivation. */
  datatype Chip = Chip(mac: Mac, kdf: Kdf, keyBlocksOk: bool)

  datatype Tasks = Tasks(setVoltage: bool, setBlock3: bool, passphrase: string, uid: string)

  datatype Id = Id(uid: string, passphrase: string)

  /** `get_espefuse_tasks`: what is left to burn, or nothing if the fuses make no sense. */
  function TasksOf(chip: Chip, f: Fuses): Option<Tasks> {
    var p := PayloadOf(f.block3, chip.mac, chip.kdf);
    if !chip.keyBlocksOk then None
    else if f.voltage.Unexpected? then None
    else if p.passphraseEmpty != p.uidEmpty then None
    else Some(Tasks(f.voltage.Unburned?, p.passphraseEmpty && p.uidEmpty, p.passphrase, p.uid))
  }

  /** What the outside contributes to one run: a fresh UID number, random material, and how
      the two burn commands go. A failing burn may leave any additional bits set. */
  datatype Outside = Outside(uidNum: nat, material: Material, voltageBurn: Option<Voltage>, blockBurn: Option<Block>) {
    predicate Valid() {
      material.Valid()
    }
  }

  function Identified(chip: Chip, o: Outside): Id
    requires o.Valid()
  {
    Id(UidText(o.uidNum), NewPassphrase(o.uidNum, o.material, chip.mac, chip.kdf))
  }

  /** Voltage fuse after its step; nothing if the burn command failed (the fuse then holds
      whatever the failed command left). */
  function AfterVoltage(t: Tasks, f: Fuses, o: Outside): (Fuses, bool) {
    if !t.setVoltage then (f, true)
    else if o.voltageBurn.Some? then (f.(voltage := o.voltageBurn.value), false)
    else (f.(voltage := Burned33), true)
  }

  /** Block 3 after its step, with the identity the run now expects. */
  function AfterBlock3(chip: Chip, t: Tasks, f: Fuses, o: Outside): (Fuses, Option<Id>)
    requires o.Valid()
  {
    if !t.setBlock3 then (f, Some(Id(t.uid, t.passphrase)))
    else if o.uidNum >= 0x1_0000_0000 then (f, None)
    else if o.blockBurn.Some? then (f.(block3 := Or(f.block3, o.blockBurn.value)), None)
    else (f.(block3 := Or(f.block3, BlockFor(o.uidNum, o.material))), Some(Identified(chip, o)))
  }

  /** One run: the fuses it leaves, and the identity it reports if it gets that far. */
  function Run(chip: Chip, f: Fuses, o: Outside): (Fuses, Option<Id>)
    requires o.Valid()
  {
    var t := TasksOf(chip, f);
    if t.None? then (f, None)
    else
      var (f1, voltageOk) := AfterVoltage(t.value, f, o);
      if !voltageOk then (f1, None)
      else
        var (f2, id) := AfterBlock3(chip, t.value, f1, o);
        if id.Some? && Verified(TasksOf(chip, f2), id.value) then (f2, id) else (f2, None)
  }

  /** The four comparisons after reading the fuses again. */
  predicate Verified(again: Option<Tasks>, id: Id) {
    && again.Some? && !again.value.setVoltage && !again.value.setBlock3
    && again.value.passphrase == id.passphrase && again.value.uid == id.uid
  }

  /** The station: fuses are external state that the steps of `main` change. */
  class Station {
    const chip: Chip
    var fuses: Fuses

    constructor (chip: Chip, fuses: Fuses)
      ensures this.chip == chip && this.fuses == fuses
    {
      this.chip := chip;
      this.fuses := fuses;
    }

    method GetEspefuseTasks() returns (r: Option<Tasks>)
      ensures r == TasksOf(chip, fuses)
    {
      var setVoltage := false;
      var setBlock3 := false;
      if !chip.keyBlocksOk {
        return None;
      }
      if fuses.voltage.Burned33? {
        setVoltage := false;
      } else if fuses.voltage.Unburned? {
        setVoltage := true;
      } else {
        return None;
      }
      var p := Block3ToPayload(fuses.block3, chip.mac, chip.kdf);
      if p.passphraseEmpty && p.uidEmpty {
        setBlock3 := true;
      } else if p.passphraseEmpty || p.uidEmpty {
        return None;
      }
      return Some(Tasks(setVoltage, setBlock3, p.passphrase, p.uid));
    }

    /** `handle_voltage_fuses`. */
    method HandleVoltageFuses(t: Tasks, o: Outside) returns (ok: bool)
      modifies this`fuses
      ensures (fuses, ok) == AfterVoltage(t, old(fuses), o)
    {
      if !t.setVoltage {
        return true;
      }
      if o.voltageBurn.Some? {
        fuses := fuses.(voltage := o.voltageBurn.value);
        return false;
      }
      fuses := fuses.(voltage := Burned33);
      return true;
    }

    /** `handle_block3_fuses`. */
    method HandleBlock3Fuses(t: Tasks, o: Outside) returns (id: Option<Id>)
      requires o.Valid()
      modifies this`fuses
      ensures (fuses, id) == AfterBlock3(chip, t, old(fuses), o)
    {
      if !t.setBlock3 {
        return Some(Id(t.uid, t.passphrase));
      }
      if o.uidNum >= 0x1_0000_0000 {
        return None;
      }
      var block, uid, passphrase := GenerateBlock(o.uidNum, o.material, chip.mac, chip.kdf);
      if o.blockBurn.Some? {
        fuses := fuses.(block3 := Or(fuses.block3, o.blockBurn.value));
        return None;
      }
      fuses := fuses.(block3 := Or(fuses.block3, block));
      return Some(Id(uid, passphrase));
    }

    /** `main` of stage 0, up to the comparison of the fuses read back. */
    method Provision(o: Outside) returns (r: Option<Id>)
      requires o.Valid()
      modifies this`fuses
      ensures (fuses, r) == Run(chip, old(fuses), o)
    {
      var tasks := GetEspefuseTasks();
      if tasks.None? {
        return None;
      }
      var ok := HandleVoltageFuses(tasks.value, o);
      if !ok {
        return None;
      }
      var id := HandleBlock3Fuses(tasks.value, o);
      if id.None? {
        return None;
      }
      var again := GetEspefuseTasks();
      if !Verified(again, id.value) {
        return None;
      }
      return id;
    }
  }

  // ---- What a completed run settles ----

  /** The fuses hold this identity and do not look blank. */
  predicate Settled(chip: Chip, f: Fuses, id: Id) {
    var p := PayloadOf(f.block3, chip.mac, chip.kdf);
    !p.passphraseEmpty && !p.uidEmpty && id == Id(p.uid, p.passphrase)
  }

  lemma CompletedRunSettles(chip: Chip, f: Fuses, o: Outside)
    requires o.Valid() && Run(chip, f, o).1.Some?
    ensures Settled(chip, Run(chip, f, o).0, Run(chip, f, o).1.value)
    ensures chip.keyBlocksOk && Run(chip, f, o).0.voltage == Burned33
  {
  }

  /** A chip with used key blocks, an unexpected flash voltage or half an identity is left alone. */
  lemma OddChipStops(chip: Chip, f: Fuses, o: Outside)
    requires o.Valid()
    requires var p := PayloadOf(f.block3, chip.mac, chip.kdf);
      !chip.keyBlocksOk || f.voltage == Unexpected || p.passphraseEmpty != p.uidEmpty
    ensures Run(chip, f, o) == (f, None)
  {
  }

  /** On a settled chip no run burns block 3 again; it reports the same identity or stops. */
  lemma SettledRun(chip: Chip, f: Fuses, id: Id, o: Outside)
    requires o.Valid() && Settled(chip, f, id)
    ensures TasksOf(chip, f).Some? ==> !TasksOf(chip, f).value.setBlock3
    ensures Run(chip, f, o).0.block3 == f.block3
    ensures Run(chip, f, o).1.Some? ==> Run(chip, f, o).1.value == id
  {
  }

  function FusesAfter(chip: Chip, f: Fuses, os: seq<Outside>): Fuses
    requires forall i :: 0 <= i < |os| ==> os[i].Valid()
  {
    if os == [] then f else Run(chip, FusesAfter(chip, f, os[..|os| - 1]), os[|os| - 1]).0
  }

  /** Whatever came before: once a run has completed, every later run, after any number of
      further runs, never asks to burn block 3 again, leaves it alone, and either reports that
      identity or stops. */
  lemma {:induction false} IdentityIsFinal(chip: Chip, f: Fuses, o: Outside, later: seq<Outside>, next: Outside)
    requires o.Valid() && next.Valid() && forall i :: 0 <= i < |later| ==> later[i].Valid()
    requires Run(chip, f, o).1.Some?
    ensures var g := FusesAfter(chip, Run(chip, f, o).0, later);
      && g.block3 == Run(chip, f, o).0.block3
      && (TasksOf(chip, g).Some? ==> !TasksOf(chip, g).value.setBlock3)
      && Run(chip, g, next).0.block3 == g.block3
      && (Run(chip, g, next).1.Some? ==> Run(chip, g, next).1 == Run(chip, f, o).1)
    decreases |later|
  {
    var f', id := Run(chip, f, o).0, Run(chip, f, o).1.value;
    CompletedRunSettles(chip, f, o);
    if later != [] {
      IdentityIsFinal(chip, f, o, later[..|later| - 1], later[|later| - 1]);
    }
    var g := FusesAfter(chip, f', later);
    assert g.block3 == f'.block3;
    SettledRun(chip, g, id, next);
  }

  /** A blank chip with working burns gets exactly the identity that was generated. The only
      way to stop is a derived passphrase equal to the one of an all-zero block. */
  lemma BlankChip(chip: Chip, f: Fuses, o: Outside)
    requires o.Valid() && chip.keyBlocksOk && !f.voltage.Unexpected? && f.block3 == Zeros(32)
    requires o.voltageBurn.None? && o.blockBurn.None? && 1 <= o.uidNum < 0x1_0000_0000
    ensures Run(chip, f, o).0.block3 == BlockFor(o.uidNum, o.material)
    ensures Run(chip, f, o).1.Some? <==>
      (UsesBase58(o.uidNum) || Identified(chip, o).passphrase != Derived(Zeros(32), chip.mac, chip.kdf))
    ensures Run(chip, f, o).1.Some? ==> Run(chip, f, o).1.value == Identified(chip, o)
  {
    BlankTasks(chip, f);
    var t := TasksOf(chip, f).value;
    BlankBurn(chip, t, AfterVoltage(t, f, o).0, o);
    RunSteps(chip, f, o, t, AfterVoltage(t, f, o).0, Fuses(BlockFor(o.uidNum, o.material), Burned33),
      Identified(chip, o));
    BurnedTasks(chip, o);
  }

  /** A run whose burns succeed, step by step. */
  lemma RunSteps(chip: Chip, f: Fuses, o: Outside, t: Tasks, f1: Fuses, f2: Fuses, id: Id)
    requires o.Valid() && TasksOf(chip, f) == Some(t)
    requires AfterVoltage(t, f, o) == (f1, true) && AfterBlock3(chip, t, f1, o) == (f2, Some(id))
    ensures Run(chip, f, o) == (f2, if Verified(TasksOf(chip, f2), id) then Some(id) else None)
  {
  }

  lemma BlankBurn(chip: Chip, t: Tasks, f: Fuses, o: Outside)
    requires o.Valid() && t.setBlock3 && f.block3 == Zeros(32) && o.blockBurn.None? && o.uidNum < 0x1_0000_0000
    ensures AfterBlock3(chip, t, f, o) == (Fuses(BlockFor(o.uidNum, o.material), f.voltage), Some(Identified(chip, o)))
  {
    BurnBlank(BlockFor(o.uidNum, o.material));
  }

  lemma BlankTasks(chip: Chip, f: Fuses)
    requires chip.keyBlocksOk && !f.voltage.Unexpected? && f.block3 == Zeros(32)
    ensures TasksOf(chip, f).Some? && TasksOf(chip, f).value.setBlock3
    ensures TasksOf(chip, f).value.setVoltage == f.voltage.Unburned?
  {
    BlankPayload(chip);
  }

  /** What the second reading finds on a chip that was blank. */
  lemma BurnedTasks(chip: Chip, o: Outside)
    requires o.Valid() && chip.keyBlocksOk && 1 <= o.uidNum < 0x1_0000_0000
    ensures Verified(TasksOf(chip, Fuses(BlockFor(o.uidNum, o.material), Burned33)), Identified(chip, o)) <==>
      (UsesBase58(o.uidNum) || Identified(chip, o).passphrase != Derived(Zeros(32), chip.mac, chip.kdf))
  {
    ReadBack(o.uidNum, o.material, chip.mac, chip.kdf);
  }

  lemma BlankPayload(chip: Chip)
    ensures var p := PayloadOf(Zeros(32), chip.mac, chip.kdf); p.passphraseEmpty && p.uidEmpty
  {
    ZeroNumeral();
    ZeroLE(Zeros(32)[28..]);
    ZeroLE(ReadChunk(Zeros(32), 0));
    ZeroLE(ReadChunk(Zeros(32), 1));
    ZeroLE(ReadChunk(Zeros(32), 2));
    ZeroLE(ReadChunk(Zeros(32), 3));
  }

  lemma {:induction false} ZeroLE(bs: seq<Byte>)
    requires forall i :: 0 <= i < |bs| ==> bs[i] == 0
    ensures FromLE(bs) == 0
  {
    if bs != [] {
      ZeroLE(bs[1..]);
    }
  }
}
