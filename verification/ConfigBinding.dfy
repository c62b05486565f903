/** The settings record and the bindings that share it, as the methods of
    src/sync/config-binding.ts change them. */
module ConfigBinding {
  import opened Utf16
  import opened Wrappers
  import opened DiskWriteIds

  /** The vault's settings: the record in memory and the saved file. */
  class Host {
    var configDiskWriteId: Option<Id>
    var savedDiskWriteId: Option<Id>

    constructor ()
      ensures configDiskWriteId == savedDiskWriteId == None
    {
      configDiskWriteId, savedDiskWriteId := None, None;
    }

    /** `ok` is whether the write of the settings file succeeds. */
    method SaveSettings(ok: bool)
      modifies this
      ensures configDiskWriteId == old(configDiskWriteId)
      ensures savedDiskWriteId == if ok then configDiskWriteId else old(savedDiskWriteId)
    {
      if ok {
        savedDiskWriteId := configDiskWriteId;
      }
    }
  }

  class ConfigBinding {
    const host: Host
    var stamp: Option<Id>
    var bases: map<Text, nat>

    constructor (host: Host)
      ensures this.host == host && Contents() == NEW_STORE
    {
      this.host := host;
      stamp, bases := None, map[];
    }

    function Contents(): Store
      reads this
    {
      Store(stamp, bases)
    }

    /** The store and the shared settings, seen from the protocol state `s`. */
    ghost predicate Shows(s: State, key: StoreKey)
      reads this, host
    {
      StoreAt(s, key) == Contents() && s.disk == host.configDiskWriteId && s.saved == host.savedDiskWriteId
    }

    method AlignBasesWithDisk() returns (dropped: nat)
      modifies this
      ensures Contents() == Align(old(Contents()), host.configDiskWriteId)
      ensures dropped == |old(bases)| - |bases|
      ensures forall s, key :: old(Shows(s, key)) && s.op == Idle ==> Shows(Step(s, Prepare(key)), key)
    {
      var disk := host.configDiskWriteId;
      if stamp == disk {
        return 0;
      }
      dropped := |bases|;
      bases := map[];
      stamp := disk;
    }

    /** `saved` and `stamped` are whether the two writes succeed; the first
        failure ends the method. */
    method RecordDiskWrite(id: Id, saved: bool, stamped: bool) returns (ok: bool)
      modifies this, host
      ensures ok == (saved && stamped) && bases == old(bases)
      ensures forall s, key ::
                old(Shows(s, key)) && (s.op == Aligned(key) || s.op == Recorded(key)) && id !in s.drawn ==>
                Shows(Run(s, Written(id, saved, stamped)), key)
                    && (ok ==> Run(s, Written(id, saved, stamped)).op == Recorded(key))
    {
      host.configDiskWriteId := Some(id);
      host.SaveSettings(saved);
      if saved && stamped {
        stamp := Some(id);
      }
      ok := saved && stamped;
      forall s, key | old(Shows(s, key)) && (s.op == Aligned(key) || s.op == Recorded(key)) && id !in s.drawn
        ensures Shows(Run(s, Written(id, saved, stamped)), key)
            && (ok ==> Run(s, Written(id, saved, stamped)).op == Recorded(key))
      {
        WrittenRun(s, key, id, saved, stamped);
      }
    }

    method ResetStore()
      modifies this
      ensures Contents() == NEW_STORE
      ensures forall s, key :: old(Shows(s, key)) && s.op == Idle ==> Shows(Step(s, Reset(key)), key)
    {
      stamp, bases := None, map[];
    }
  }

  /** The protocol events of one `recordDiskWrite`. */
  function Written(id: Id, saved: bool, stamped: bool): seq<Event> {
    if !saved then [Draw(id)] else if !stamped then [Draw(id), SaveSettings] else [Draw(id), SaveSettings, StampStore]
  }

  lemma WrittenRun(s: State, key: StoreKey, id: Id, saved: bool, stamped: bool)
    requires (s.op == Aligned(key) || s.op == Recorded(key)) && id !in s.drawn
    ensures var r := Run(s, Written(id, saved, stamped));
            && r.disk == Some(id) && r.saved == (if saved then Some(id) else s.saved)
            && StoreAt(r, key) == (if saved && stamped then StoreAt(s, key).(stamp := Some(id)) else StoreAt(s, key))
            && (saved && stamped ==> r.op == Recorded(key))
  {
    var s1 := Step(s, Draw(id));
    var s2 := Step(s1, SaveSettings);
    var s3 := Step(s2, StampStore);
    assert [Draw(id), SaveSettings, StampStore][1..] == [SaveSettings, StampStore];
    assert [SaveSettings, StampStore][1..] == [StampStore] && [StampStore][1..] == [];
    assert [Draw(id), SaveSettings][1..] == [SaveSettings] && [SaveSettings][1..] == [] && [Draw(id)][1..] == [];
    assert Run(s1, []) == s1 && Run(s2, []) == s2 && Run(s3, []) == s3;
    assert Run(s2, [StampStore]) == s3;
    assert Run(s1, [SaveSettings, StampStore]) == s3 && Run(s1, [SaveSettings]) == s2;
  }
}
