/** When an apply ends in an exception that is no `SuggestApplyError`, and when
    one that nothing goes wrong in succeeds. */
module ApplyCrash {
  import opened Prelude
  import opened Rules
  import opened Reconcile
  import opened Yaml
  import opened InPlace
  import opened ApplyExceptions

  // `data`, when host.yaml was read and holds a mapping or nothing.
  predicate IsMapping(parsed: Value) {
    Truthy(parsed) ==> parsed.Dict?
  }

  function DataOf(parsed: Value): seq<(string, Value)>
    requires IsMapping(parsed)
  {
    if Truthy(parsed) then parsed.entries else []
  }

  predicate GivesMapping(lib: Library, raw: string) {
    lib.parse(raw).Parsed? && IsMapping(lib.parse(raw).value)
  }

  // `exceptions` holds `true`, a date, or a number other than zero.
  predicate NotIterable(data: seq<(string, Value)>) {
    match Get(data, "exceptions")
    case Some(Flag(b)) => b
    case Some(Number(n)) => n != 0
    case Some(Float(f)) => !(f.Finite? && f.mantissa == 0)
    case Some(Date(_)) => true
    case _ => false
  }

  predicate IdIs(item: Value, id: Value) {
    item.Dict? && Get(item.entries, "id") == Some(id)
  }

  // An entry whose `id` is a list, a mapping or a set.
  predicate Unhashable(item: Value) {
    && item.Dict?
    && Get(item.entries, "id").Some?
    && var id := Get(item.entries, "id").value; id.List? || id.Dict? || id.Set?
  }

  // Some suggestion's id is the `id` of no entry.
  predicate SomethingNew(items: seq<Value>, considered: seq<Suggestion>) {
    exists s :: s in considered && !HasId(items, s.decl.id)
  }

  predicate HasId(items: seq<Value>, id: string) {
    exists item :: item in items && IdIs(item, Text(id))
  }

  lemma {:induction false} ExistingIdsAre(items: seq<Value>)
    ensures ExistingIds(items) == None <==> exists item :: item in items && Unhashable(item)
    ensures ExistingIds(items).Some? ==>
              forall id :: id in ExistingIds(items).value <==> exists item :: item in items && IdIs(item, id)
  {
    if items != [] {
      var init, last := items[..|items| - 1], items[|items| - 1];
      ExistingIdsAre(init);
      assert items == init + [last];
      assert forall item :: item in items <==> item in init || item == last;
      if Unhashable(last) {
        assert last in items;
      } else if ExistingIds(items).Some? {
        forall id
          ensures id in ExistingIds(items).value <==> exists item :: item in items && IdIs(item, id)
        {
          if id in ExistingIds(items).value {
            if id in ExistingIds(init).value {
              var item :| item in init && IdIs(item, id);
              assert item in items;
            } else {
              assert last in items && IdIs(last, id);
            }
          }
        }
      }
    }
  }

  lemma SomethingNewIff(items: seq<Value>, considered: seq<Suggestion>)
    requires ExistingIds(items).Some?
    ensures NewOnes(considered, ExistingIds(items).value) != [] <==> SomethingNew(items, considered)
  {
    hide ExistingIds, NewOnes;
    var existing := ExistingIds(items).value;
    ExistingIdsAre(items);
    NewOnesMembers(considered, existing);
    var kept := NewOnes(considered, existing);
    if kept != [] {
      assert kept[0] in kept;
      assert !HasId(items, kept[0].decl.id);
    }
    if SomethingNew(items, considered) {
      var s :| s in considered && !HasId(items, s.decl.id);
      assert s in kept;
    }
  }

  lemma BareCandidate(p: Plan)
    requires p.Append?
    ensures BareDisk(Candidate(p)) == BareDisk(p.data)
  {
    GetPut(p.data, "exceptions", List(p.items + DeclValues(p.toApply)), "disk");
  }

  lemma IterateFails(data: seq<(string, Value)>)
    requires Loaded(Dict(data))
    ensures Iterate(Get(data, "exceptions")) == None <==> NotIterable(data)
  {
    if Get(data, "exceptions").Some? {
      GetPlain(data, "exceptions");
    }
  }

  lemma DumpFails(lib: Library, raw: string, considered: seq<Suggestion>)
    requires YamlLoads(lib) && PlanFor(lib, raw, considered).Append?
    ensures var p := PlanFor(lib, raw, considered);
            (NewContent(lib, p) == None <==> BareDisk(p.data) || HasLong(Dict(Candidate(p))))
  {
    hide PlanFor, Candidate, Plain, Edited, BareDisk, HasLong, Loaded;
    var p := PlanFor(lib, raw, considered);
    CandidateLoaded(lib, raw, considered);
    PlainIff(Dict(Candidate(p)));
    EditedPlainIff(Candidate(p));
    BareCandidate(p);
  }

  // The exceptions cannot be walked, or some entry's id cannot be hashed.
  predicate CannotScan(data: seq<(string, Value)>) {
    var items := Iterate(Get(data, "exceptions"));
    NotIterable(data) || (items.Some? && exists item :: item in items.value && Unhashable(item))
  }

  // There is something to write, the schema takes it and the backup succeeds,
  // but the disk block names neither a preset nor a layout, or a number in the
  // candidate has more digits than `str` writes.
  predicate CannotDump(lib: Library, faults: Faults, p: Plan, considered: seq<Suggestion>) {
    && p.Append?
    && SomethingNew(p.items, considered)
    && lib.accepts(Dict(Candidate(p)))
    && faults.copy.NoFault?
    && (BareDisk(p.data) || HasLong(Dict(Candidate(p))))
  }

  // Once host.yaml was read, an apply ends in an exception it does not expect
  // exactly when the parser raises one, or the text parses to a mapping and one of
  // the two holds.
  lemma CrashIff(lib: Library, faults: Faults, raw: string, considered: seq<Suggestion>, gated: seq<string>)
    requires YamlLoads(lib)
    ensures var plan := PlanFor(lib, raw, considered);
            && (OutcomeOf(lib, faults, plan, gated) == Crashed
                <==> || lib.parse(raw).OtherError?
                     || (&& GivesMapping(lib, raw)
                         && (CannotScan(DataOf(lib.parse(raw).value)) || CannotDump(lib, faults, plan, considered))))
            && (plan.Append? ==> GivesMapping(lib, raw) && plan.data == DataOf(lib.parse(raw).value))
  {
    hide Iterate, ExistingIds, NewOnes, OldIds, Candidate, NewContent, BareDisk, Unhashable, NotIterable, SomethingNew, Loaded, HasLong;
    if !GivesMapping(lib, raw) {
      return;
    }
    var parsed := lib.parse(raw).value;
    var data := DataOf(parsed);
    assert Loaded(Dict(data)) by {
      EmptyIsLoaded();
    }
    IterateFails(data);
    var items := Iterate(Get(data, "exceptions"));
    if items.Some? {
      ExistingIdsAre(items.value);
      if ExistingIds(items.value).Some? {
        SomethingNewIff(items.value, considered);
        DumpFails(lib, raw, considered);
      }
    }
  }

  lemma EmptyIsLoaded()
    ensures Loaded(Dict([]))
  {
  }

  // With nothing going wrong in the file system, an apply that has something to
  // write succeeds exactly when the schema takes it, the disk block, if there is
  // one, names a preset or a layout, and no number is too long.
  lemma AppliesIff(lib: Library, faults: Faults, raw: string, considered: seq<Suggestion>, gated: seq<string>)
    requires YamlLoads(lib) && faults == Faults(Readable, NoFault, NoFault, false)
    requires PlanFor(lib, raw, considered).Append?
    ensures var p := PlanFor(lib, raw, considered);
            && (OutcomeOf(lib, faults, p, gated).Applied?
                <==> || !SomethingNew(p.items, considered)
                     || (lib.accepts(Dict(Candidate(p))) && !BareDisk(p.data) && !HasLong(Dict(Candidate(p)))))
  {
    hide PlanFor, Candidate, NewContent, BareDisk, SomethingNew, ExistingIds, NewOnes, HasLong;
    PlanParts(lib, raw, considered);
    SomethingNewIff(PlanFor(lib, raw, considered).items, considered);
    DumpFails(lib, raw, considered);
  }

  // ----- inputs that show it

  const ADMIN := Dict([
    ("name", Text("ops")), ("sudo", Text("nopasswd_yes")), ("authorized_keys", List([Text("ssh-rsa AAAAB3")]))])

  // A host that says where to install and leaves the rest to the defaults.
  function HostWith(disk: seq<(string, Value)>): seq<(string, Value)> {
    [("system", Dict([("hostname", Text("web1"))])), ("user", Dict([("admin", ADMIN)])), ("disk", Dict(disk))]
  }

  lemma HostWithDisk(disk: seq<(string, Value)>)
    ensures Get(HostWith(disk), "disk") == Some(Dict(disk)) && Get(HostWith(disk), "exceptions") == None
  {
    var top := HostWith(disk);
    assert Get(top, "disk") == Get(top[1..], "disk") == Get(top[1..][1..], "disk") == Some(Dict(disk));
    assert Get(top, "exceptions") == Get(top[1..], "exceptions") == Get(top[1..][1..], "exceptions")
        == Get(top[1..][1..][1..], "exceptions") == None;
  }

  // Nothing is there yet, so the one suggestion is new.
  lemma FirstException(lib: Library, raw: string, data: seq<(string, Value)>, s: Suggestion)
    requires lib.parse(raw) == Parsed(Dict(data)) && data != [] && Get(data, "exceptions") == None
    ensures PlanFor(lib, raw, [s]) == Append(data, [], [s], [])
    ensures SomethingNew([], [s])
  {
    assert NewOnes([s], {}) == [s] && OldIds([s], {}) == [] by {
      assert [s][..0] == [];
    }
    assert s in [s] && !HasId([], s.decl.id);
  }

  // Nor does the host hold a number at all.
  lemma NoLongNumber(disk: seq<(string, Value)>, s: Suggestion)
    requires disk == [("target", Text("sda")), ("preset", Text("stig_server"))]
    ensures !HasLong(Dict(Candidate(Append(HostWith(disk), [], [s], []))))
  {
    var host, added := HostWith(disk), List([] + DeclValues([s]));
    assert Plain(Dict(host)) && Loaded(Dict(host)) by {
      HostPlain(disk);
    }
    DeclValuesLoaded([s]);
    assert [] + DeclValues([s]) == DeclValues([s]);
    HostWithDisk(disk);
    hide Plain, Loaded, HasLong, HostWith;
    EachEntry(host);
    PutPlain(host, "exceptions", added);
    PutLoaded(host, "exceptions", added);
    PlainIff(Dict(Put(host, "exceptions", added)));
  }

  ghost predicate AllPlain(entries: seq<(string, Value)>) {
    UniqueKeys(entries) && forall e :: e in entries ==> Plain(e.1) && Loaded(e.1)
  }

  lemma MappingPlain(entries: seq<(string, Value)>)
    requires AllPlain(entries)
    ensures Plain(Dict(entries)) && Loaded(Dict(entries))
  {
    hide Plain, Loaded;
    EachEntry(entries);
  }

  lemma AdminPlain()
    ensures Plain(ADMIN) && Loaded(ADMIN)
  {
    var keys := List([Text("ssh-rsa AAAAB3")]);
    assert Plain(keys) && Loaded(keys);
    assert Plain(Text("ops")) && Loaded(Text("ops")) && Plain(Text("nopasswd_yes")) && Loaded(Text("nopasswd_yes"));
    hide Plain, Loaded;
    assert |"name"| == 4 && |"sudo"| == 4 && |"authorized_keys"| == 15 && "name"[0] != "sudo"[0];
    MappingPlain(ADMIN.entries);
  }

  lemma TextsPlain(s: string)
    ensures Plain(Text(s)) && Loaded(Text(s))
  {
  }

  lemma HostPlain(disk: seq<(string, Value)>)
    requires disk == [("target", Text("sda")), ("preset", Text("stig_server"))]
    ensures Plain(Dict(HostWith(disk))) && Loaded(Dict(HostWith(disk)))
  {
    hide Plain, Loaded, ADMIN;
    AdminPlain();
    TextsPlain("web1");
    TextsPlain("sda");
    TextsPlain("stig_server");
    MappingPlain([("admin", ADMIN)]);
    MappingPlain([("hostname", Text("web1"))]);
    assert "target"[0] != "preset"[0];
    MappingPlain(disk);
    assert "system"[0] != "user"[0] && "user"[0] != "disk"[0] && "system"[0] != "disk"[0];
    MappingPlain(HostWith(disk));
  }

  // `disk: {target: sda}` and one suggestion: nothing goes wrong but the dump.
  lemma BareDiskCrashes(lib: Library, faults: Faults, raw: string, s: Suggestion)
    requires YamlLoads(lib) && lib.parse(raw) == Parsed(Dict(HostWith([("target", Text("sda"))])))
    requires faults == Faults(Readable, NoFault, NoFault, false)
    requires lib.accepts(Dict(Candidate(PlanFor(lib, raw, [s]))))
    ensures OutcomeOf(lib, faults, PlanFor(lib, raw, [s]), []) == Crashed
  {
    hide PlanFor, Candidate, NewContent, SomethingNew, HostWith, YamlLoads;
    var disk := [("target", Text("sda"))];
    HostWithDisk(disk);
    FirstException(lib, raw, HostWith(disk), s);
    assert disk[1..] == [];
    assert Bare(disk);
    DumpFails(lib, raw, [s]);
  }

  // Naming the preset that is the default anyway makes the same call succeed.
  lemma NamedPresetApplies(lib: Library, faults: Faults, raw: string, s: Suggestion)
    requires YamlLoads(lib)
    requires lib.parse(raw) == Parsed(Dict(HostWith([("target", Text("sda")), ("preset", Text("stig_server"))])))
    requires faults == Faults(Readable, NoFault, NoFault, false)
    requires lib.accepts(Dict(Candidate(PlanFor(lib, raw, [s]))))
    ensures OutcomeOf(lib, faults, PlanFor(lib, raw, [s]), []) == Applied(AppendResult([s.decl.id], [], []))
  {
    hide PlanFor, Candidate, NewContent, SomethingNew, HostWith, YamlLoads;
    var disk := [("target", Text("sda")), ("preset", Text("stig_server"))];
    HostWithDisk(disk);
    FirstException(lib, raw, HostWith(disk), s);
    assert Get(disk, "preset") == Get(disk[1..], "preset") == Some(Text("stig_server"));
    assert !Bare(disk);
    DumpFails(lib, raw, [s]);
    NoLongNumber(disk, s);
    assert DeclIds([s]) == [s.decl.id];
  }

  // `exceptions: 5`
  lemma NumberCrashes(lib: Library, faults: Faults, raw: string, considered: seq<Suggestion>, gated: seq<string>)
    requires lib.parse(raw) == Parsed(Dict([("exceptions", Number(5))]))
    ensures OutcomeOf(lib, faults, PlanFor(lib, raw, considered), gated) == Crashed
  {
  }

  // `exceptions: [{id: [a]}]`
  lemma ListIdCrashes(lib: Library, faults: Faults, raw: string, considered: seq<Suggestion>, gated: seq<string>)
    requires lib.parse(raw) == Parsed(Dict([("exceptions", List([Dict([("id", List([Text("a")]))])]))]))
    ensures OutcomeOf(lib, faults, PlanFor(lib, raw, considered), gated) == Crashed
  {
  }

  // `exceptions: 1.5`
  lemma FloatCrashes(lib: Library, faults: Faults, raw: string, considered: seq<Suggestion>, gated: seq<string>)
    requires lib.parse(raw) == Parsed(Dict([("exceptions", Float(Finite(3, -1)))]))
    ensures OutcomeOf(lib, faults, PlanFor(lib, raw, considered), gated) == Crashed
  {
  }

  // `exceptions: 2024-01-01`
  lemma DateCrashes(lib: Library, faults: Faults, raw: string, considered: seq<Suggestion>, gated: seq<string>)
    requires lib.parse(raw) == Parsed(Dict([("exceptions", Date("2024-01-01"))]))
    ensures OutcomeOf(lib, faults, PlanFor(lib, raw, considered), gated) == Crashed
  {
  }

  // `x: 2024-13-45`: no such date, so the parser raises a ValueError.
  lemma ImpossibleDateCrashes(lib: Library, faults: Faults, considered: seq<Suggestion>, gated: seq<string>)
    requires lib.parse("x: 2024-13-45") == OtherError
    ensures OutcomeOf(lib, faults, PlanFor(lib, "x: 2024-13-45", considered), gated) == Crashed
  {
  }

  // A decimal text has k digits at most exactly below the k-th power of ten.
  lemma {:induction false} DigitsIff(n: nat, k: nat)
    requires k >= 1
    ensures |Decimal(n)| <= k <==> n < Power(10, k)
    ensures |Decimal(n)| >= 1
  {
    if n < 10 {
      TenAtLeast(k);
    } else if k == 1 {
      assert Power(10, 1) == 10 * Power(10, 0);
      DigitsIff(n / 10, 1);
    } else {
      DigitsIff(n / 10, k - 1);
    }
  }

  lemma {:induction false} TenAtLeast(k: nat)
    requires k >= 1
    ensures Power(10, k) >= 10
  {
    if k > 1 {
      TenAtLeast(k - 1);
    } else {
      assert Power(10, 1) == 10 * Power(10, 0);
    }
  }

  // `str` writes a number, of either sign, exactly when it has 4300 digits at most.
  lemma ShortIff(n: int)
    ensures Short(n) <==> |Decimal(if n < 0 then -n else n)| <= 4300
  {
    DigitsIff(if n < 0 then -n else n, 4300);
  }

  const LONG_SSH := Dict([("client_alive_interval", Number(Power(10, MAX_INT_DIGITS)))])

  lemma LongSsh()
    ensures HasLong(LONG_SSH)
  {
    assert !Short(Power(10, MAX_INT_DIGITS));
    var entries := LONG_SSH.entries;
    assert entries[0].1 == Number(Power(10, MAX_INT_DIGITS));
  }

  // `ssh: {client_alive_interval: ...}` with a number of 4301 decimal digits,
  // written in hexadecimal: it is read, accepted and backed up, and cannot be
  // written.
  lemma LongNumberCrashes(lib: Library, faults: Faults, raw: string, disk: seq<(string, Value)>, s: Suggestion)
    requires YamlLoads(lib) && faults == Faults(Readable, NoFault, NoFault, false)
    requires lib.parse(raw) == Parsed(Dict([("ssh", LONG_SSH)] + HostWith(disk)))
    requires var p := PlanFor(lib, raw, [s]); p.Append? && lib.accepts(Dict(Candidate(p)))
    ensures OutcomeOf(lib, faults, PlanFor(lib, raw, [s]), []) == Crashed
  {
    hide PlanFor, NewContent, Candidate, SomethingNew, HostWith, YamlLoads, HasLong, LONG_SSH;
    var data := [("ssh", LONG_SSH)] + HostWith(disk);
    HostWithDisk(disk);
    assert data[1..] == HostWith(disk) && data[0] == ("ssh", LONG_SSH);
    assert Get(data, "exceptions") == None && Get(data, "ssh") == Some(LONG_SSH);
    FirstException(lib, raw, data, s);
    LongSsh();
    var p := PlanFor(lib, raw, [s]);
    CandidateKeeps(p, "ssh");
    LongWithin(Candidate(p), "ssh");
    DumpFails(lib, raw, [s]);
  }

  lemma CandidateKeeps(p: Plan, key: string)
    requires p.Append? && key != "exceptions"
    ensures Get(Candidate(p), key) == Get(p.data, key)
  {
    GetPut(p.data, "exceptions", List(p.items + DeclValues(p.toApply)), key);
  }

  lemma LongWithin(entries: seq<(string, Value)>, key: string)
    requires Get(entries, key).Some? && HasLong(Get(entries, key).value)
    ensures HasLong(Dict(entries))
  {
    GetIn(entries, key);
    var i :| 0 <= i < |entries| && entries[i] == (key, Get(entries, key).value);
  }
}
