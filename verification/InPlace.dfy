/** What validating a mapping does to the mapping itself: the schema's
    before-validators that fill in a default store it in the dict they are
    handed, which is a part of the caller's. */
module InPlace {
  import opened Prelude
  import opened Yaml
  import Disk

  const STIG_SERVER := Enum("stig_server")

  const SCAP_CONTENT_ALMA8 := "ssg-almalinux8-ds.xml"

  // `DataDisk._default_partition_when_preserve`: only a real `False` counts.
  function DataDiskEdited(item: Value): Value {
    if
      && item.Dict?
      && Get(item.entries, "wipe") == Some(Flag(false))
      && NoneAt(item.entries, "partition")
      && NoneAt(item.entries, "partition_uuid")
      && NoneAt(item.entries, "partition_label")
    then Dict(Put(item.entries, "partition", Number(1)))
    else item
  }

  function DataDisksEdited(items: seq<Value>): seq<Value> {
    seq(|items|, i requires 0 <= i < |items| => DataDiskEdited(items[i]))
  }

  // A disk block that names neither a preset nor a layout.
  predicate Bare(disk: seq<(string, Value)>) {
    NoneAt(disk, "preset") && NoneAt(disk, "layout")
  }

  // `Disk._preset_xor_layout` and then the validators of its data disks.
  function DiskEdited(disk: seq<(string, Value)>): seq<(string, Value)> {
    var filled := if Bare(disk) then Put(disk, "preset", STIG_SERVER) else disk;
    match Get(filled, "data_disks")
    case Some(List(items)) => Put(filled, "data_disks", List(DataDisksEdited(items)))
    case _ => filled
  }

  function WithDisk(top: seq<(string, Value)>): seq<(string, Value)> {
    match Get(top, "disk")
    case Some(Dict(disk)) => Put(top, "disk", Dict(DiskEdited(disk)))
    case _ => top
  }

  // `HostConfig._scap_content_matches_distro_before`. For alma9 it stores
  // nothing, and for alma10 it is handed a copy of the mapping, made by the
  // validator that fills in the mirror URLs; alma8 has no mirror URLs, so there
  // it is handed the caller's own.
  function WithMeta(top: seq<(string, Value)>): seq<(string, Value)> {
    if Get(top, "distro") == Some(Text("alma8")) && Get(top, "meta") == None
    then Put(top, "meta", Dict([("scap_content", Text(SCAP_CONTENT_ALMA8))]))
    else top
  }

  // The mapping as validating it leaves it, when it is accepted.
  function Edited(top: seq<(string, Value)>): seq<(string, Value)> {
    WithDisk(WithMeta(top))
  }

  // The disk block is there and is bare.
  predicate BareDisk(top: seq<(string, Value)>) {
    match Get(top, "disk")
    case Some(Dict(disk)) => Bare(disk)
    case _ => false
  }

  lemma DiskEditedKeeps(disk: seq<(string, Value)>, key: string)
    requires !Bare(disk) && key != "data_disks"
    ensures Get(DiskEdited(disk), key) == Get(disk, key)
  {
    if Get(disk, "data_disks").Some? && Get(disk, "data_disks").value.List? {
      GetPut(disk, "data_disks", List(DataDisksEdited(Get(disk, "data_disks").value.items)), key);
    }
  }

  function BlockEdited(block: Option<Value>): Option<Value> {
    if block.Some? && block.value.Dict? then Some(Dict(DiskEdited(block.value.entries))) else block
  }

  lemma EditedDisk(top: seq<(string, Value)>)
    ensures Get(WithMeta(top), "disk") == Get(top, "disk")
    ensures Get(Edited(top), "disk") == BlockEdited(Get(top, "disk"))
  {
    hide DiskEdited;
    GetPut(top, "meta", Dict([("scap_content", Text(SCAP_CONTENT_ALMA8))]), "disk");
    var next := WithMeta(top);
    if Get(next, "disk").Some? && Get(next, "disk").value.Dict? {
      GetPut(next, "disk", Dict(DiskEdited(Get(next, "disk").value.entries)), "disk");
    }
  }

  // Nothing but the disk block and an absent `meta` is touched.
  lemma EditedKeeps(top: seq<(string, Value)>, key: string)
    requires key != "disk" && (key != "meta" || Get(top, "meta").Some?)
    ensures Get(Edited(top), key) == Get(top, key)
  {
    hide DiskEdited;
    GetPut(top, "meta", Dict([("scap_content", Text(SCAP_CONTENT_ALMA8))]), key);
    var next := WithMeta(top);
    if Get(next, "disk").Some? && Get(next, "disk").value.Dict? {
      GetPut(next, "disk", Dict(DiskEdited(Get(next, "disk").value.entries)), key);
    }
  }

  // What validating leaves behind: the stig_server preset in a disk block that
  // names neither a preset nor a layout, and for alma8 the scap content of an
  // absent meta block.
  lemma EditedSays(top: seq<(string, Value)>)
    ensures BareDisk(top) ==>
      && Get(Edited(top), "disk").Some? && Get(Edited(top), "disk").value.Dict?
      && Get(Get(Edited(top), "disk").value.entries, "preset") == Some(Enum("stig_server"))
    ensures Get(Edited(top), "meta")
         == if Get(top, "distro") == Some(Text("alma8")) && Get(top, "meta") == None
            then Some(Dict([("scap_content", Text("ssg-almalinux8-ds.xml"))])) else Get(top, "meta")
  {
    EditedDisk(top);
    var meta := Dict([("scap_content", Text(SCAP_CONTENT_ALMA8))]);
    GetPut(top, "meta", meta, "meta");
    var next := WithMeta(top);
    assert |"meta"| == 4 && "meta"[0] != "disk"[0] && |"preset"| != |"data_disks"|;
    if Get(next, "disk").Some? && Get(next, "disk").value.Dict? {
      var disk := Get(next, "disk").value.entries;
      GetPut(next, "disk", Dict(DiskEdited(disk)), "meta");
      if Bare(disk) {
        PresetFilled(disk);
      }
    }
  }

  lemma PresetFilled(disk: seq<(string, Value)>)
    requires Bare(disk)
    ensures Get(DiskEdited(disk), "preset") == Some(STIG_SERVER)
  {
    GetPut(disk, "preset", STIG_SERVER, "preset");
    var filled := Put(disk, "preset", STIG_SERVER);
    assert |"preset"| != |"data_disks"|;
    if Get(filled, "data_disks").Some? && Get(filled, "data_disks").value.List? {
      GetPut(filled, "data_disks", List(DataDisksEdited(Get(filled, "data_disks").value.items)), "preset");
    }
  }

  lemma DataDiskPlain(item: Value)
    requires Loaded(item)
    ensures Loaded(DataDiskEdited(item)) && (Plain(DataDiskEdited(item)) <==> Plain(item))
  {
    SmallIsShort(1);
    hide Short;
    if item.Dict? {
      hide Plain, Loaded;
      OneIsPlain();
      EachEntry(item.entries);
      PutPlain(item.entries, "partition", Number(1));
      PutLoaded(item.entries, "partition", Number(1));
    }
  }

  // ----- the same edit as the one on a data disk's fields

  function WipeIn(v: Option<Value>, toBool: Value -> bool): Disk.Wipe {
    match v case None => Disk.Absent case Some(Flag(b)) => Disk.Bool(b) case Some(x) => Disk.Coerced(toBool(x))
  }

  function NumberIn(v: Option<Value>, toInt: Value -> int): Option<int> {
    match v case None => None case Some(Null) => None case Some(Number(n)) => Some(n) case Some(x) => Some(toInt(x))
  }

  function TextIn(v: Option<Value>, toText: Value -> string): Option<string> {
    match v case None => None case Some(Null) => None case Some(Text(s)) => Some(s) case Some(x) => Some(toText(x))
  }

  // The fields of a data disk as its mapping gives them; the conversions are those
  // of the schema.
  function RawOf(
    entries: seq<(string, Value)>, target: string, mount: string,
    toBool: Value -> bool, toInt: Value -> int, toText: Value -> string): Disk.RawDisk
  {
    Disk.RawDisk(
      target, mount, WipeIn(Get(entries, "wipe"), toBool), NumberIn(Get(entries, "partition"), toInt),
      TextIn(Get(entries, "partition_uuid"), toText), TextIn(Get(entries, "partition_label"), toText))
  }

  // What validating stores in a data disk's mapping is the partition that the disk
  // is given by default, and nothing else.
  lemma DefaultIsStored(
    entries: seq<(string, Value)>, target: string, mount: string,
    toBool: Value -> bool, toInt: Value -> int, toText: Value -> string)
    ensures DataDiskEdited(Dict(entries)).Dict?
    ensures RawOf(DataDiskEdited(Dict(entries)).entries, target, mount, toBool, toInt, toText)
         == Disk.DefaultPartition(RawOf(entries, target, mount, toBool, toInt, toText))
    ensures forall key :: key != "partition" ==> Get(DataDiskEdited(Dict(entries)).entries, key) == Get(entries, key)
  {
    forall key
      ensures Get(Put(entries, "partition", Number(1)), key)
           == if key == "partition" then Some(Number(1)) else Get(entries, key)
    {
      GetPut(entries, "partition", Number(1), key);
    }
    assert |"partition"| == 9 && |"wipe"| == 4 && |"partition_uuid"| == 14 && |"partition_label"| == 15;
  }

  lemma OneIsPlain()
    ensures Plain(Number(1)) && Loaded(Number(1)) && Plain(Null)
  {
    SmallIsShort(1);
  }

  lemma DataDisksPlain(items: seq<Value>)
    requires Loaded(List(items))
    ensures Loaded(List(DataDisksEdited(items)))
    ensures Plain(List(DataDisksEdited(items))) <==> Plain(List(items))
  {
    forall i | 0 <= i < |items|
      ensures Loaded(DataDiskEdited(items[i])) && (Plain(DataDiskEdited(items[i])) <==> Plain(items[i]))
    {
      DataDiskPlain(items[i]);
    }
    hide DataDiskEdited;
    var after := DataDisksEdited(items);
    assert forall i :: 0 <= i < |items| ==> after[i] == DataDiskEdited(items[i]);
    assert Plain(List(items)) ==> forall i :: 0 <= i < |items| ==> Plain(items[i]);
    if Plain(List(after)) {
      forall i | 0 <= i < |items|
        ensures Plain(items[i])
      {
        assert Plain(after[i]);
      }
    }
  }

  lemma StigServerIsEnum()
    ensures !Plain(STIG_SERVER)
  {
  }

  // A disk block can still be written down when it names a preset or a layout
  // and could be before.
  lemma DiskEditedPlain(disk: seq<(string, Value)>)
    requires Loaded(Dict(disk))
    ensures Plain(Dict(DiskEdited(disk))) <==> !Bare(disk) && Plain(Dict(disk))
  {
    hide Plain, Loaded, Bare;
    EachEntry(disk);
    StigServerIsEnum();
    var filled := if Bare(disk) then Put(disk, "preset", STIG_SERVER) else disk;
    PutEntries(disk, "preset", STIG_SERVER);
    PutPlain(disk, "preset", STIG_SERVER);
    GetPut(disk, "preset", STIG_SERVER, "data_disks");
    assert Bare(disk) ==> !Plain(Dict(filled));
    if Get(filled, "data_disks").Some? && Get(filled, "data_disks").value.List? {
      var items := Get(filled, "data_disks").value.items;
      GetPlain(disk, "data_disks");
      DataDisksPlain(items);
      PutPlain(filled, "data_disks", List(DataDisksEdited(items)));
    }
  }

  // A validated mapping can be written down again exactly when it could be before
  // and its disk block, if it has one, says what its preset or its layout is.
  lemma EditedPlainIff(top: seq<(string, Value)>)
    requires Loaded(Dict(top))
    ensures Plain(Dict(Edited(top))) <==> !BareDisk(top) && Plain(Dict(top))
  {
    hide DiskEdited, Bare, Plain, Loaded;
    EditedDisk(top);
    MetaPlain(top);
    var next := WithMeta(top);
    EachEntry(next);
    if Get(next, "disk").Some? && Get(next, "disk").value.Dict? {
      var disk := Get(next, "disk").value.entries;
      GetPlain(next, "disk");
      DiskEditedPlain(disk);
      PutPlain(next, "disk", Dict(DiskEdited(disk)));
    }
  }

  lemma MetaPlain(top: seq<(string, Value)>)
    requires Loaded(Dict(top))
    ensures Loaded(Dict(WithMeta(top))) && (Plain(Dict(WithMeta(top))) <==> Plain(Dict(top)))
  {
    var meta := Dict([("scap_content", Text(SCAP_CONTENT_ALMA8))]);
    assert Plain(Text(SCAP_CONTENT_ALMA8)) && Loaded(Text(SCAP_CONTENT_ALMA8));
    assert Plain(meta) && Loaded(meta);
    hide Plain, Loaded;
    EachEntry(top);
    PutPlain(top, "meta", meta);
    PutLoaded(top, "meta", meta);
  }
}
