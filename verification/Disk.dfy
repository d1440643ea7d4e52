/** The disk validators of config.py, and the functions that rely on them. */
module Disk {
  import opened Prelude

  // Python's `\d`, `int(...)` and the target and mount patterns.
  datatype Python = Python(digit: char -> bool, toInt: string -> Option<int>, target: string -> bool, mount: string -> bool)

  ghost predicate ReadsDigits(py: Python) {
    forall s :: s != "" && (forall c :: c in s ==> py.digit(c)) ==> (py.toInt(s).Some? <==> |s| <= MAX_INT_DIGITS)
  }

  // ----- logical volumes

  datatype FsType = Xfs | Ext4 | Swap

  datatype Lv = Lv(name: string, mount: Option<string>, size: Option<string>, fstype: FsType)

  const REQUIRED_MOUNTS: set<string> := {"/", "/home", "/tmp", "/var", "/var/log", "/var/log/audit", "/var/tmp"}

  // The default sizes; the swap volume, without a mount, has one too.
  function DefaultSize(mount: Option<string>): Option<string> {
    if mount == None then Some("recommended")
    else if mount.value == "/" then Some("15G")
    else if mount.value == "/home" then Some("5G")
    else if mount.value == "/tmp" then Some("3G")
    else if mount.value == "/var" then Some("10G")
    else if mount.value == "/var/log" then Some("5G")
    else if mount.value == "/var/log/audit" then Some("3G")
    else if mount.value == "/var/tmp" then Some("2G")
    else None
  }

  // ^\d+(M|G|T)$
  predicate SizeText(py: Python, s: string) {
    && |s| > 1
    && (forall c :: c in s[..|s| - 1] ==> py.digit(c))
    && (s[|s| - 1] == 'M' || s[|s| - 1] == 'G' || s[|s| - 1] == 'T')
  }

  // The field constraints of one volume.
  predicate FieldsOk(py: Python, lv: Lv) {
    lv.size.Some? ==> SizeText(py, lv.size.value) || lv.size.value == "recommended"
  }

  datatype LayoutError =
    | MissingMount(mount: string)
    | SwapMounted(name: string)
    | NoMount(name: string)
    | SwapCount(found: nat)
    | DuplicateName(name: string)
    | DuplicateMount(mount: string)
    | NoSize(name: string)

  function Mounts(lvs: seq<Lv>): seq<string> {
    if lvs == [] then []
    else Mounts(lvs[..|lvs| - 1]) + (match lvs[|lvs| - 1].mount case Some(m) => [m] case None => [])
  }

  function Names(lvs: seq<Lv>): seq<string> {
    Map(lvs, (lv: Lv) => lv.name)
  }

  function SwapsIn(lvs: seq<Lv>): nat {
    if lvs == [] then 0 else SwapsIn(lvs[..|lvs| - 1]) + (if lvs[|lvs| - 1].fstype.Swap? then 1 else 0)
  }

  function Swaps(lvs: seq<Lv>): seq<Lv> {
    Filter(lvs, (lv: Lv) => lv.fstype.Swap?)
  }

  lemma {:induction false} SwapsAre(lvs: seq<Lv>)
    ensures SwapsIn(lvs) == |Swaps(lvs)|
  {
    if lvs != [] {
      var init, last := lvs[..|lvs| - 1], lvs[|lvs| - 1];
      SwapsAre(init);
      FilterConcat(init, [last], (lv: Lv) => lv.fstype.Swap?);
      assert lvs == init + [last] && [last][1..] == [];
    }
  }

  predicate MountsMatch(lv: Lv) {
    lv.fstype.Swap? <==> lv.mount == None
  }

  predicate Sized(lv: Lv) {
    lv.size.Some? || DefaultSize(lv.mount).Some?
  }

  ghost predicate LayoutOk(lvs: seq<Lv>) {
    && REQUIRED_MOUNTS <= ToSet(Mounts(lvs))
    && (forall lv :: lv in lvs ==> MountsMatch(lv) && Sized(lv))
    && SwapsIn(lvs) == 1
    && Distinct(Names(lvs)) && Distinct(Mounts(lvs))
  }

  predicate Required(mount: string) {
    mount in {"/", "/home", "/tmp", "/var", "/var/log", "/var/log/audit", "/var/tmp"}
  }

  // What an error says is true of the layout.
  ghost predicate Real(lvs: seq<Lv>, e: LayoutError) {
    match e
    case MissingMount(m) =>
      Required(m) && m !in Mounts(lvs) && forall x :: Required(x) && x !in Mounts(lvs) ==> StrLe(m, x)
    case SwapMounted(n) => exists lv :: lv in lvs && lv.name == n && lv.fstype.Swap? && lv.mount != None
    case NoMount(n) => exists lv :: lv in lvs && lv.name == n && !lv.fstype.Swap? && lv.mount == None
    case SwapCount(k) => k == SwapsIn(lvs) != 1
    case DuplicateName(n) => Twice(Names(lvs), n)
    case DuplicateMount(m) => Twice(Mounts(lvs), m)
    case NoSize(n) => exists lv :: lv in lvs && lv.name == n && !Sized(lv)
  }

  ghost predicate Twice(xs: seq<string>, x: string) {
    exists i, j :: 0 <= i < j < |xs| && xs[i] == xs[j] == x
  }

  // The `seen` loop: the first element that was there before.
  method FirstRepeat(xs: seq<string>) returns (r: Option<string>)
    ensures r.None? <==> Distinct(xs)
    ensures r.Some? ==> Twice(xs, r.value)
  {
    var seen: set<string> := {};
    var i := 0;
    while i < |xs|
      invariant 0 <= i <= |xs|
      invariant forall x :: x in seen <==> x in xs[..i]
      invariant Distinct(xs[..i])
    {
      if xs[i] in seen {
        var k :| 0 <= k < i && xs[..i][k] == xs[i];
        assert xs[k] == xs[i];
        return Some(xs[i]);
      }
      seen := seen + {xs[i]};
      assert xs[..i + 1] == xs[..i] + [xs[i]];
      i := i + 1;
    }
    assert xs[..i] == xs;
    return None;
  }

  method CheckMountsMatch(lvs: seq<Lv>) returns (r: Option<LayoutError>)
    ensures r.None? <==> forall lv :: lv in lvs ==> MountsMatch(lv)
    ensures r.Some? ==> (r.value.SwapMounted? || r.value.NoMount?) && Real(lvs, r.value)
  {
    for i := 0 to |lvs|
      invariant forall k :: 0 <= k < i ==> MountsMatch(lvs[k])
    {
      assert lvs[i] in lvs;
      if lvs[i].fstype.Swap? && lvs[i].mount != None {
        return Some(SwapMounted(lvs[i].name));
      }
      if !lvs[i].fstype.Swap? && lvs[i].mount == None {
        return Some(NoMount(lvs[i].name));
      }
    }
    return None;
  }

  method CheckSizes(lvs: seq<Lv>) returns (r: Option<LayoutError>)
    ensures r.None? <==> forall lv :: lv in lvs ==> Sized(lv)
    ensures r.Some? ==> r.value.NoSize? && Real(lvs, r.value)
  {
    for i := 0 to |lvs|
      invariant forall k :: 0 <= k < i ==> Sized(lvs[k])
    {
      assert lvs[i] in lvs;
      if lvs[i].size == None && DefaultSize(lvs[i].mount) == None {
        return Some(NoSize(lvs[i].name));
      }
    }
    return None;
  }

  // `DiskLayout._validate_layout`
  method ValidateLayout(lvs: seq<Lv>) returns (r: Option<LayoutError>)
    ensures r.None? <==> LayoutOk(lvs)
    ensures r.None? ==> forall m :: Required(m) ==> m in Mounts(lvs)
    ensures r.None? ==> |Swaps(lvs)| == 1
    ensures r.Some? && r.value.SwapCount? ==> r.value.found == |Swaps(lvs)| != 1
    ensures r.Some? ==> Real(lvs, r.value)
    // and it is the first of them: no error hides behind a later one
    ensures r.Some? && !r.value.MissingMount? ==> REQUIRED_MOUNTS <= ToSet(Mounts(lvs))
    ensures r.Some? && (r.value.SwapCount? || r.value.DuplicateName? || r.value.DuplicateMount? || r.value.NoSize?) ==>
      forall lv :: lv in lvs ==> MountsMatch(lv)
    ensures r.Some? && (r.value.DuplicateName? || r.value.DuplicateMount? || r.value.NoSize?) ==> SwapsIn(lvs) == 1
    ensures r.Some? && (r.value.DuplicateMount? || r.value.NoSize?) ==> Distinct(Names(lvs))
    ensures r.Some? && r.value.NoSize? ==> Distinct(Mounts(lvs))
  {
    assert forall m :: m in REQUIRED_MOUNTS <==> Required(m);
    SwapsAre(lvs);
    hide StrLe, MountsMatch, Sized, Mounts, Names, SwapsIn, Swaps, REQUIRED_MOUNTS, Required;
    var missing := REQUIRED_MOUNTS - ToSet(Mounts(lvs));
    if missing != {} {
      var m := Least(missing);
      assert m in REQUIRED_MOUNTS && m !in ToSet(Mounts(lvs));
      return Some(MissingMount(m));
    }
    assert REQUIRED_MOUNTS <= ToSet(Mounts(lvs)) by {
      forall m | m in REQUIRED_MOUNTS
        ensures m in ToSet(Mounts(lvs))
      {
        assert m !in missing;
      }
    }
    r := CheckMountsMatch(lvs);
    if r.Some? {
      return;
    }
    if SwapsIn(lvs) != 1 {
      return Some(SwapCount(SwapsIn(lvs)));
    }
    var name := FirstRepeat(Names(lvs));
    if name.Some? {
      return Some(DuplicateName(name.value));
    }
    var mount := FirstRepeat(Mounts(lvs));
    if mount.Some? {
      return Some(DuplicateMount(mount.value));
    }
    r := CheckSizes(lvs);
  }

  // ----- sizes

  datatype Size = Recommended | Megabytes(mb: int)

  datatype SizeError = BadInt | BadUnit | NoDefault

  function Unit(c: char): Option<int> {
    if c == 'M' then Some(1) else if c == 'G' then Some(1024) else if c == 'T' then Some(1024 * 1024) else None
  }

  // `size_to_mb`; an error is the exception Python raises.
  function SizeToMb(py: Python, s: string): Result<int, SizeError> {
    if s == "" || py.toInt(s[..|s| - 1]).None? then Err(BadInt)
    else
      match Unit(s[|s| - 1])
      case None => Err(BadUnit)
      case Some(u) => Ok(py.toInt(s[..|s| - 1]).value * u)
  }

  // `effective_size_mb`
  function EffectiveSize(py: Python, lv: Lv): Result<Size, SizeError> {
    var size := if lv.size.Some? then lv.size else DefaultSize(lv.mount);
    if size == None then Err(NoDefault)
    else if size.value == "recommended" then Ok(Recommended)
    else
      match SizeToMb(py, size.value)
      case Err(e) => Err(e)
      case Ok(mb) => Ok(Megabytes(mb))
  }

  ghost predicate AsciiDigits(py: Python) {
    forall c :: '0' <= c <= '9' ==> py.digit(c)
  }

  // What a size is in megabytes.
  lemma SizeIs(py: Python, digits: string, n: int)
    requires py.toInt(digits) == Some(n)
    ensures SizeToMb(py, digits + "M") == Ok(n)
    ensures SizeToMb(py, digits + "G") == Ok(n * 1024)
    ensures SizeToMb(py, digits + "T") == Ok(n * 1048576)
  {
    assert forall unit: string | |unit| == 1 :: (digits + unit)[..|digits + unit| - 1] == digits;
  }

  lemma DefaultTexts()
    ensures DefaultSize(Some("/")) == Some("15G") && DefaultSize(Some("/home")) == Some("5G")
    ensures DefaultSize(Some("/tmp")) == Some("3G") && DefaultSize(Some("/var")) == Some("10G")
    ensures DefaultSize(Some("/var/log")) == Some("5G") && DefaultSize(Some("/var/log/audit")) == Some("3G")
    ensures DefaultSize(Some("/var/tmp")) == Some("2G") && DefaultSize(None) == Some("recommended")
  {
    assert |"/"| == 1 && |"/home"| == 5 && |"/tmp"| == 4 && |"/var"| == 4 && |"/var/log"| == 8;
    assert |"/var/log/audit"| == 14 && |"/var/tmp"| == 8;
    assert "/tmp"[1] != "/var"[1] && "/var/log"[5] != "/var/tmp"[5];
  }

  // A volume that gives no size gets the STIG's for its mount, 15 gigabytes for the
  // root, and the installer's own for swap.
  lemma DefaultSizes(py: Python, name: string, fstype: FsType)
    requires py.toInt("15") == Some(15) && py.toInt("10") == Some(10) && py.toInt("5") == Some(5)
    requires py.toInt("3") == Some(3) && py.toInt("2") == Some(2)
    ensures EffectiveSize(py, Lv(name, Some("/"), None, fstype)) == Ok(Megabytes(15360))
    ensures EffectiveSize(py, Lv(name, Some("/var"), None, fstype)) == Ok(Megabytes(10240))
    ensures EffectiveSize(py, Lv(name, Some("/home"), None, fstype)) == Ok(Megabytes(5120))
    ensures EffectiveSize(py, Lv(name, Some("/var/log"), None, fstype)) == Ok(Megabytes(5120))
    ensures EffectiveSize(py, Lv(name, Some("/tmp"), None, fstype)) == Ok(Megabytes(3072))
    ensures EffectiveSize(py, Lv(name, Some("/var/log/audit"), None, fstype)) == Ok(Megabytes(3072))
    ensures EffectiveSize(py, Lv(name, Some("/var/tmp"), None, fstype)) == Ok(Megabytes(2048))
    ensures EffectiveSize(py, Lv(name, None, None, fstype)) == Ok(Recommended)
  {
    DefaultTexts();
    assert |"recommended"| == 11 && "15" + "G" == "15G" && "10" + "G" == "10G" && "5" + "G" == "5G";
    assert "3" + "G" == "3G" && "2" + "G" == "2G";
    hide DefaultSize, SizeToMb;
    SizeIs(py, "15", 15);
    SizeIs(py, "10", 10);
    SizeIs(py, "5", 5);
    SizeIs(py, "3", 3);
    SizeIs(py, "2", 2);
  }

  lemma SizeTextConverts(py: Python, s: string)
    requires ReadsDigits(py) && SizeText(py, s)
    ensures SizeToMb(py, s).Ok? <==> |s| - 1 <= MAX_INT_DIGITS
  {
    assert s[..|s| - 1] != "" && |s[..|s| - 1]| == |s| - 1;
  }

  lemma DefaultsConvert(py: Python, mount: Option<string>)
    requires AsciiDigits(py) && DefaultSize(mount).Some? && mount.Some?
    ensures SizeText(py, DefaultSize(mount).value) && DefaultSize(mount).value != "recommended"
    ensures |DefaultSize(mount).value| <= 3
  {
    var s := DefaultSize(mount).value;
    assert s[|s| - 1] == 'G';
  }

  // A size in more digits than `int` reads; the schema takes it.
  predicate TooLong(lv: Lv) {
    lv.size.Some? && lv.size.value != "recommended" && |lv.size.value| - 1 > MAX_INT_DIGITS
  }

  // For a volume whose fields are accepted, `effective_size_mb` needs exactly
  // the layout's size check and a size that `int` reads.
  lemma SizedIff(py: Python, lv: Lv)
    requires ReadsDigits(py) && AsciiDigits(py) && FieldsOk(py, lv)
    ensures EffectiveSize(py, lv).Ok? <==> Sized(lv) && !TooLong(lv)
    ensures EffectiveSize(py, lv) == Ok(Recommended) ==> lv.mount == None || lv.size == Some("recommended")
  {
    if lv.size.Some? && lv.size.value != "recommended" {
      SizeTextConverts(py, lv.size.value);
    }
    if lv.size.None? && lv.mount.Some? && DefaultSize(lv.mount).Some? {
      DefaultsConvert(py, lv.mount);
      hide DefaultSize, SizeText;
      SizeTextConverts(py, DefaultSize(lv.mount).value);
    }
  }

  // Every volume of an accepted layout has a size, unless `int` cannot read it;
  // only the swap volume may be left to the installer without asking for it.
  lemma AcceptedHasSize(py: Python, lvs: seq<Lv>, lv: Lv)
    requires ReadsDigits(py) && AsciiDigits(py) && lv in lvs && FieldsOk(py, lv) && LayoutOk(lvs)
    ensures EffectiveSize(py, lv).Ok? <==> !TooLong(lv)
    ensures EffectiveSize(py, lv) == Ok(Recommended) ==> lv.fstype.Swap? || lv.size == Some("recommended")
  {
    hide REQUIRED_MOUNTS;
    SizedIff(py, lv);
  }

  // A volume of 4301 digits that the schema and the layout check accept.
  lemma LongSizeRaises(py: Python)
    requires ReadsDigits(py) && AsciiDigits(py)
    ensures var lv := Lv("data", Some("/data"), Some(seq(MAX_INT_DIGITS + 1, _ => '1') + "G"), Xfs);
      FieldsOk(py, lv) && Sized(lv) && EffectiveSize(py, lv) == Err(BadInt)
  {
    var digits := seq(MAX_INT_DIGITS + 1, _ => '1');
    var s := digits + "G";
    assert s[..|s| - 1] == digits && s[|s| - 1] == 'G';
    assert forall c :: c in digits ==> c == '1';
    assert s != "recommended" by {
      assert |"recommended"| == 11;
    }
  }

  // ----- data disks

  // `wipe` as given: absent, a real boolean, or a value that pydantic turns
  // into a boolean, such as 0 or "no".
  datatype Wipe = Absent | Bool(b: bool) | Coerced(b: bool)

  datatype RawDisk = RawDisk(
    target: string, mount: string, wipe: Wipe, partition: Option<int>, uuid: Option<string>, volumeLabel: Option<string>)

  datatype DataDisk = DataDisk(
    target: string, mount: string, wipe: bool, partition: Option<int>, uuid: Option<string>, volumeLabel: Option<string>)

  datatype DiskError = BadTarget | BadMount | BadPartition | IdentifierWithWipe | TooManyIdentifiers | UnstableTarget

  // `_default_partition_when_preserve`, which compares with `is False`.
  function DefaultPartition(raw: RawDisk): RawDisk {
    if raw.wipe == Bool(false) && raw.partition == None && raw.uuid == None && raw.volumeLabel == None
    then raw.(partition := Some(1))
    else raw
  }

  function Identifiers(d: DataDisk): nat {
    (if d.partition.Some? then 1 else 0) + (if d.uuid.Some? then 1 else 0) + (if d.volumeLabel.Some? then 1 else 0)
  }

  predicate Stable(target: string) {
    "disk/by-id/" <= target || "disk/by-path/" <= target
  }

  // The name of a device that stays with it.
  predicate Lasting(target: string)
    ensures Lasting(target) <==> Stable(target)
  {
    || (|target| >= |"disk/by-id/"| && target[..|"disk/by-id/"|] == "disk/by-id/")
    || (|target| >= |"disk/by-path/"| && target[..|"disk/by-path/"|] == "disk/by-path/")
  }

  function Fields(raw: RawDisk): DataDisk {
    DataDisk(raw.target, raw.mount, raw.wipe.Absent? || raw.wipe.b, raw.partition, raw.uuid, raw.volumeLabel)
  }

  // `DataDisk(...)`: the before-validator, the field constraints, the two after-validators.
  function MakeDataDisk(py: Python, raw: RawDisk): Result<DataDisk, DiskError> {
    var d := Fields(DefaultPartition(raw));
    if !py.target(d.target) then Err(BadTarget)
    else if !py.mount(d.mount) then Err(BadMount)
    else if d.partition.Some? && d.partition.value < 1 then Err(BadPartition)
    else if d.wipe && Identifiers(d) > 0 then Err(IdentifierWithWipe)
    else if !d.wipe && Identifiers(d) > 1 then Err(TooManyIdentifiers)
    else if d.partition.Some? && !Stable(d.target) then Err(UnstableTarget)
    else Ok(d)
  }

  // `_fstab_spec`; None is the assertion that fails. `show` is `str` of an integer.
  function FstabSpec(show: int -> string, d: DataDisk): Option<string> {
    if d.partition.Some? then Some("/dev/" + d.target + "-part" + show(d.partition.value))
    else if d.uuid.Some? then Some("UUID=" + d.uuid.value)
    else if d.volumeLabel.Some? then Some("LABEL=" + d.volumeLabel.value)
    else None
  }

  // A wiped disk is accepted without an identifier, a preserved one with at most
  // one, a partition number only from one on and on a persistent name. A preserved
  // disk without one gets partition 1 when its `wipe` is a real False.
  lemma MadeIff(py: Python, raw: RawDisk)
    ensures MakeDataDisk(py, raw).Ok? <==>
      && py.target(raw.target) && py.mount(raw.mount)
      && (if raw.wipe == Absent || raw.wipe == Bool(true) || raw.wipe == Coerced(true)
          then raw.partition == None && raw.uuid == None && raw.volumeLabel == None
          else if raw.partition.Some?
          then raw.uuid == None && raw.volumeLabel == None && raw.partition.value >= 1 && Lasting(raw.target)
          else
            && !(raw.uuid.Some? && raw.volumeLabel.Some?)
            && (raw.wipe == Bool(false) && raw.uuid == None && raw.volumeLabel == None ==> Lasting(raw.target)))
    ensures MakeDataDisk(py, raw).Ok? ==>
      var d := MakeDataDisk(py, raw).value;
      && d.target == raw.target && d.mount == raw.mount && d.uuid == raw.uuid && d.volumeLabel == raw.volumeLabel
      && (d.wipe <==> raw.wipe != Bool(false) && raw.wipe != Coerced(false))
      && d.partition == if raw.wipe == Bool(false) && raw.uuid == None && raw.volumeLabel == None && raw.partition == None
                        then Some(1) else raw.partition
  {
    hide Stable;
  }

  // How fstab names a preserved disk, by what identifies it.
  lemma FstabSpecIs(py: Python, show: int -> string, raw: RawDisk)
    requires MakeDataDisk(py, raw).Ok? && (raw.wipe == Bool(false) || raw.wipe == Coerced(false))
    ensures var spec := FstabSpec(show, MakeDataDisk(py, raw).value);
      && (raw.partition.Some? ==> spec == Some("/dev/" + raw.target + "-part" + show(raw.partition.value)))
      && (raw.uuid.Some? ==> spec == Some("UUID=" + raw.uuid.value))
      && (raw.volumeLabel.Some? ==> spec == Some("LABEL=" + raw.volumeLabel.value))
      && (raw.wipe == Bool(false) && raw.partition == None && raw.uuid == None && raw.volumeLabel == None ==>
            spec == Some("/dev/" + raw.target + "-part" + show(1)))
  {
    hide Stable;
  }

  // An accepted disk is named by exactly one identifier when it is preserved
  // and by none when it is wiped, unless its `wipe` was a coerced false and no
  // identifier was given: exactly then a preserved disk reaches the assertion.
  lemma FstabSpecIff(py: Python, show: int -> string, raw: RawDisk)
    requires MakeDataDisk(py, raw).Ok?
    ensures var d := MakeDataDisk(py, raw).value;
      && (!d.wipe ==> (FstabSpec(show, d).None? <==>
            raw.wipe == Coerced(false) && raw.partition == None && raw.uuid == None && raw.volumeLabel == None))
      && (d.wipe ==> Identifiers(d) == 0)
      && (!d.wipe && raw.wipe == Bool(false) ==> Identifiers(d) == 1)
  {
  }

  // `wipe: 0` on a preserved disk that names no partition: accepted, and then
  // the assertion fails.
  lemma CoercedWipeHasNoSpec(py: Python, show: int -> string)
    requires py.target("sdb") && py.mount("/data")
    ensures var made := MakeDataDisk(py, RawDisk("sdb", "/data", Coerced(false), None, None, None));
            made.Ok? && !made.value.wipe && FstabSpec(show, made.value) == None
  {
  }

  // A partition number is only ever appended to a persistent name.
  lemma PartitionSpecIsStable(py: Python, show: int -> string, raw: RawDisk)
    requires MakeDataDisk(py, raw).Ok? && MakeDataDisk(py, raw).value.partition.Some?
    ensures var d := MakeDataDisk(py, raw).value;
      && !d.wipe && d.partition.value >= 1
      && FstabSpec(show, d) == Some("/dev/" + d.target + "-part" + show(d.partition.value))
      && Lasting(d.target)
  {
  }

  // ----- data disks against the rest of the host

  datatype Preset = StigServer | Minimal

  datatype DiskConfig = DiskConfig(
    preset: Option<Preset>, layout: Option<seq<Lv>>, target: Option<string>, dataDisks: seq<DataDisk>, containers: bool)

  datatype HostError = NoSystemTarget | TargetCollides(i: nat) | MountCollides(i: nat) | MinimalDataDisks

  function Reserved(cfg: DiskConfig): set<string> {
    {"/", "/boot", "/boot/efi"}
    + (if cfg.layout.Some? then ToSet(Mounts(cfg.layout.value))
       else if cfg.preset == Some(StigServer) then REQUIRED_MOUNTS else {})
    + (if cfg.containers then {"/srv/containers"} else {})
  }

  function Targets(disks: seq<DataDisk>): seq<string> {
    Map(disks, (d: DataDisk) => d.target)
  }

  function DataMounts(disks: seq<DataDisk>): seq<string> {
    Map(disks, (d: DataDisk) => d.mount)
  }

  // Distinct, and apart from what is taken already.
  ghost predicate Apart(taken: set<string>, xs: seq<string>) {
    Distinct(xs) && forall x :: x in xs ==> x !in taken
  }

  // The `seen` loop of both validators: the first index that collides.
  method FirstCollision(taken: set<string>, xs: seq<string>) returns (r: Option<nat>)
    ensures r.None? <==> Apart(taken, xs)
    ensures r.Some? ==> r.value < |xs| && (xs[r.value] in taken || xs[r.value] in xs[..r.value])
    ensures r.Some? ==> Apart(taken, xs[..r.value])
  {
    var seen: set<string> := {};
    var i := 0;
    while i < |xs|
      invariant 0 <= i <= |xs|
      invariant forall x :: x in seen <==> x in xs[..i]
      invariant Apart(taken, xs[..i])
    {
      if xs[i] in taken || xs[i] in seen {
        if xs[i] in seen {
          var k :| 0 <= k < i && xs[..i][k] == xs[i];
          assert xs[k] == xs[i];
        }
        return Some(i);
      }
      seen := seen + {xs[i]};
      assert xs[..i + 1] == xs[..i] + [xs[i]];
      i := i + 1;
    }
    assert xs[..i] == xs;
    return None;
  }

  ghost predicate HostOk(cfg: DiskConfig) {
    && (cfg.dataDisks != [] ==> cfg.target.Some? && cfg.preset != Some(Minimal))
    && Apart(if cfg.target.Some? then {cfg.target.value} else {}, Targets(cfg.dataDisks))
    && Apart(Reserved(cfg), DataMounts(cfg.dataDisks))
  }

  // The data-disk validators of HostConfig, in order.
  method ValidateDataDisks(cfg: DiskConfig) returns (r: Option<HostError>)
    ensures r.None? <==> HostOk(cfg)
    ensures r == Some(NoSystemTarget) ==> cfg.dataDisks != [] && cfg.target.None?
    ensures r.Some? && r.value.TargetCollides? ==>
      var i, ts := r.value.i, Targets(cfg.dataDisks);
      i < |ts| && (cfg.target == Some(ts[i]) || ts[i] in ts[..i])
    ensures r.Some? && r.value.MountCollides? ==>
      var i, ms := r.value.i, DataMounts(cfg.dataDisks);
      i < |ms| && (ms[i] in Reserved(cfg) || ms[i] in ms[..i])
    ensures r == Some(MinimalDataDisks) ==> cfg.dataDisks != [] && cfg.preset == Some(Minimal)
    // and it is the first of them
    ensures r.Some? && !r.value.NoSystemTarget? ==> cfg.dataDisks == [] || cfg.target.Some?
    ensures r.Some? && (r.value.MountCollides? || r.value.MinimalDataDisks?) ==>
      Apart(if cfg.target.Some? then {cfg.target.value} else {}, Targets(cfg.dataDisks))
    ensures r.Some? && r.value.MinimalDataDisks? ==> Apart(Reserved(cfg), DataMounts(cfg.dataDisks))
  {
    hide Reserved, Targets, DataMounts;
    if cfg.dataDisks != [] && cfg.target.None? {
      return Some(NoSystemTarget);
    }
    var system := if cfg.target.Some? then {cfg.target.value} else {};
    var k := FirstCollision(system, Targets(cfg.dataDisks));
    if k.Some? {
      return Some(TargetCollides(k.value));
    }
    k := FirstCollision(Reserved(cfg), DataMounts(cfg.dataDisks));
    if k.Some? {
      return Some(MountCollides(k.value));
    }
    if cfg.preset == Some(Minimal) && cfg.dataDisks != [] {
      return Some(MinimalDataDisks);
    }
    return None;
  }

  // The disk shares neither its device nor its mount point with the system, a
  // volume or another data disk.
  ghost predicate StandsApart(cfg: DiskConfig, i: nat)
    requires i < |cfg.dataDisks|
  {
    var d := cfg.dataDisks[i];
    && cfg.target.Some? && d.target != cfg.target.value
    && d.mount != "/" && d.mount != "/boot" && d.mount != "/boot/efi"
    && (cfg.layout.Some? ==> forall lv :: lv in cfg.layout.value && lv.mount.Some? ==> lv.mount.value != d.mount)
    && (cfg.layout.None? && cfg.preset == Some(StigServer) ==> !Required(d.mount))
    && (cfg.containers ==> d.mount != "/srv/containers")
    && (forall j | 0 <= j < |cfg.dataDisks| && j != i ::
          cfg.dataDisks[j].target != d.target && cfg.dataDisks[j].mount != d.mount)
  }

  ghost predicate AllApart(cfg: DiskConfig) {
    forall i :: 0 <= i < |cfg.dataDisks| ==> cfg.preset != Some(Minimal) && StandsApart(cfg, i)
  }

  lemma StandsWhere(cfg: DiskConfig, i: nat)
    requires i < |cfg.dataDisks|
    ensures var d := cfg.dataDisks[i];
      d.mount in Reserved(cfg)
      <==> || d.mount == "/" || d.mount == "/boot" || d.mount == "/boot/efi"
           || (cfg.layout.Some? && exists lv :: lv in cfg.layout.value && lv.mount == Some(d.mount))
           || (cfg.layout.None? && cfg.preset == Some(StigServer) && Required(d.mount))
           || (cfg.containers && d.mount == "/srv/containers")
  {
    assert forall m :: m in REQUIRED_MOUNTS <==> Required(m);
    hide REQUIRED_MOUNTS, Mounts, Required;
    if cfg.layout.Some? {
      MountsAre(cfg.layout.value, cfg.dataDisks[i].mount);
    }
  }

  lemma AcceptedStandsApart(cfg: DiskConfig, i: nat)
    requires HostOk(cfg) && i < |cfg.dataDisks|
    ensures StandsApart(cfg, i)
  {
    var ts, ms := Targets(cfg.dataDisks), DataMounts(cfg.dataDisks);
    hide REQUIRED_MOUNTS, Mounts, Required, Reserved;
    StandsWhere(cfg, i);
    assert ts[i] == cfg.dataDisks[i].target && ms[i] == cfg.dataDisks[i].mount;
    assert ts[i] in ts && ms[i] in ms;
    forall j | 0 <= j < |cfg.dataDisks| && j != i
      ensures cfg.dataDisks[j].target != cfg.dataDisks[i].target && cfg.dataDisks[j].mount != cfg.dataDisks[i].mount
    {
      assert ts[j] == cfg.dataDisks[j].target && ms[j] == cfg.dataDisks[j].mount;
    }
  }

  lemma ApartIsAccepted(cfg: DiskConfig)
    requires AllApart(cfg)
    ensures HostOk(cfg)
  {
    var ts, ms := Targets(cfg.dataDisks), DataMounts(cfg.dataDisks);
    hide REQUIRED_MOUNTS, Mounts, Required, Reserved;
    if cfg.dataDisks != [] {
      assert StandsApart(cfg, 0);
    }
    forall i | 0 <= i < |ts|
      ensures cfg.target.Some? && ts[i] != cfg.target.value && ms[i] !in Reserved(cfg)
      ensures forall j :: 0 <= j < |ts| && j != i ==> ts[j] != ts[i] && ms[j] != ms[i]
    {
      assert StandsApart(cfg, i);
      StandsWhere(cfg, i);
    }
  }

  // A host with data disks is accepted exactly when its preset takes any and each
  // of them stands apart.
  lemma DataDisksAreApart(cfg: DiskConfig)
    ensures HostOk(cfg) <==> AllApart(cfg)
  {
    if HostOk(cfg) {
      MinimalTakesNone(cfg);
      hide HostOk, StandsApart, AllApart;
      forall i | 0 <= i < |cfg.dataDisks|
        ensures StandsApart(cfg, i)
      {
        AcceptedStandsApart(cfg, i);
      }
      ApartTogether(cfg);
    } else if AllApart(cfg) {
      ApartIsAccepted(cfg);
    }
  }

  lemma ApartTogether(cfg: DiskConfig)
    requires cfg.dataDisks != [] ==> cfg.preset != Some(Minimal)
    requires forall i :: 0 <= i < |cfg.dataDisks| ==> StandsApart(cfg, i)
    ensures AllApart(cfg)
  {
    hide StandsApart;
  }

  lemma MinimalTakesNone(cfg: DiskConfig)
    ensures HostOk(cfg) && cfg.dataDisks != [] ==> cfg.preset != Some(Minimal)
  {
    hide Apart;
  }

  lemma {:induction false} MountsAre(lvs: seq<Lv>, mount: string)
    ensures mount in Mounts(lvs) <==> exists lv :: lv in lvs && lv.mount == Some(mount)
  {
    if lvs != [] {
      var init, last := lvs[..|lvs| - 1], lvs[|lvs| - 1];
      assert lvs == init + [last];
      MountsAre(init, mount);
    }
  }

  // ----- the lean package preset

  const LEAN_EXTRA := ["logrotate", "postfix", "cronie", "crontabs", "parted"]

  // The keys of the `packages` block that the lean preset rewrites; None is an
  // absent key.
  datatype RawPackages = RawPackages(lean: bool, baseGroups: Option<seq<string>>, required: Option<seq<string>>)

  datatype PackageDefaults = PackageDefaults(baseGroups: seq<string>, required: seq<string>)

  function WithExtra(required: seq<string>): seq<string> {
    required + Filter(LEAN_EXTRA, (p: string) => p !in required)
  }

  function WithoutStandard(groups: seq<string>): seq<string> {
    Filter(groups, (g: string) => g != "@standard")
  }

  // `_normalize_lean_preset`
  function NormalizeLean(defaults: PackageDefaults, raw: RawPackages): RawPackages {
    if !raw.lean then raw
    else
      var groups := if raw.baseGroups.Some? then raw.baseGroups.value else defaults.baseGroups;
      var required := if raw.required.Some? then raw.required.value else defaults.required;
      RawPackages(true, Some(WithoutStandard(groups)), Some(WithExtra(required)))
  }

  // Normalising twice is normalising once; afterwards the stored fields are
  // already the effective ones, so host.yaml says what gets installed.
  lemma NormalizeLeanTwice(defaults: PackageDefaults, raw: RawPackages)
    ensures NormalizeLean(defaults, NormalizeLean(defaults, raw)) == NormalizeLean(defaults, raw)
    ensures raw.lean ==>
      var n := NormalizeLean(defaults, raw);
      && WithoutStandard(n.baseGroups.value) == n.baseGroups.value && WithExtra(n.required.value) == n.required.value
      && "@standard" !in n.baseGroups.value && (forall p :: p in LEAN_EXTRA ==> p in n.required.value)
      && (forall p :: p in n.required.value <==>
            p in (if raw.required.Some? then raw.required.value else defaults.required)
            || p in ["logrotate", "postfix", "cronie", "crontabs", "parted"])
      && (raw.required.Some? ==> raw.required.value <= n.required.value)
  {
    assert LEAN_EXTRA == ["logrotate", "postfix", "cronie", "crontabs", "parted"];
    hide LEAN_EXTRA;
    if raw.lean {
      var n := NormalizeLean(defaults, raw);
      var groups, required := n.baseGroups.value, n.required.value;
      FilterKeepsAll(groups, (g: string) => g != "@standard");
      forall p | p in LEAN_EXTRA
        ensures p in required
      {
      }
      FilterDropsAll(LEAN_EXTRA, (p: string) => p !in required);
      assert required + [] == required;
    }
  }
}
