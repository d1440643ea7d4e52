/** What the unattended boot entry says, and that a rewritten config holds it. */
module BootEntry {
  import opened Prelude
  import opened Relabel
  import opened Regex
  import opened Bootloader
  import BootRewrite

  // ----- the entry, spelled out

  // Every character of the isolinux entry. A network install names no package
  // source on the disc.
  lemma IsolinuxEntry(volid: string, network: bool)
    ensures EntryText(Isolinux, volid, network)
         == MARKER + "\nlabel ksgen-unattended\n" + "  menu label ^Unattended STIG" + " install (ks-gen)\n" + "  menu default\n"
            + "  kernel vmlinuz\n  append initrd" + "=" + "initrd.img inst.stage2" + "=" + "hd:LABEL" + "=" + volid
            + (if network then "" else " inst.repo" + "=" + "hd:LABEL" + "=" + volid)
            + (" inst.ks" + "=" + "hd:LABEL" + "=") + volid + (":" + "/ks.cfg quiet\n") + "\n"
  {
    hide MARKER;
    BootIs(ISOLINUX_HEAD, network, REPO, KS, ISOLINUX_TAIL, volid);
    hide Fill;
  }

  // And of the grub entry, for EFI and for BIOS.
  lemma GrubEntry(kind: Kind, volid: string, network: bool)
    requires kind != Isolinux
    ensures EntryText(kind, volid, network)
         == MARKER + "\nmenuentry 'Unattended STIG" + " install (ks-gen)' " + "--class fedora --class gnu-linux"
            + " --class gnu --class os {\n" + "  search --no-floppy --set" + "=" + "root -l " + "'" + volid
            + ("'" + "\n  " + (if kind == GrubEfi then "linuxefi" else "linux")
               + " /images/pxeboot/vmlinuz" + " inst.stage2" + "=" + "hd:LABEL" + "=") + volid
            + (if network then "" else " inst.repo" + "=" + "hd:LABEL" + "=" + volid)
            + (" inst.ks" + "=" + "hd:LABEL" + "=") + volid
            + (":" + "/ks.cfg quiet\n  " + (if kind == GrubEfi then "initrdefi" else "initrd")
               + " /images/pxeboot/initrd.img\n}\n") + "\n"
  {
    hide MARKER;
    GrubIs(GRUB_HEAD, GrubBoot(kind), network, REPO, KS, GrubTail(kind), volid);
    hide Fill;
  }

  lemma BootIs(head: string, network: bool, repo: string, ks: string, tail: string, volid: string)
    ensures Fill([head] + Boot(network, repo, ks, tail), volid)
         == head + volid + (if network then "" else repo + volid) + ks + volid + tail
  {
    var last := [ks] + [tail];
    assert Fill([tail], volid) == tail && last[1..] == [tail];
    assert Fill(last, volid) == ks + volid + tail;
    if network {
      assert ([head] + ([] + last))[1..] == last;
    } else {
      assert ([repo] + last)[1..] == last && ([head] + ([repo] + last))[1..] == [repo] + last;
      assert Fill([repo] + last, volid) == repo + volid + (ks + volid + tail);
    }
  }

  lemma GrubIs(head: string, boot: string, network: bool, repo: string, ks: string, tail: string, volid: string)
    ensures Fill([head] + ([boot] + Boot(network, repo, ks, tail)), volid)
         == head + volid + boot + volid + (if network then "" else repo + volid) + ks + volid + tail
  {
    BootIs(boot, network, repo, ks, tail, volid);
    hide Boot;
    var rest := [boot] + Boot(network, repo, ks, tail);
    assert ([head] + rest)[1..] == rest;
    assert Fill([head] + rest, volid) == head + volid + Fill(rest, volid);
  }

  // ----- what it holds, and what it does not

  lemma HoldsPart(a: string, part: string, b: string)
    ensures Contains(a + part + b, part)
  {
    assert part <= (a + part + b)[|a|..];
  }

  lemma HoldsMore(a: string, text: string, b: string, part: string)
    requires Contains(text, part)
    ensures Contains(a + text + b, part)
  {
    var i: nat :| i <= |text| && part <= text[i..];
    var all := a + text + b;
    assert all[|a| + i..] == text[i..] + b;
  }

  // What an entry may hold: a package source on the disc, the EFI loaders.
  datatype May = May(disc: bool, efi: bool)

  // `o=`, the end of `inst.repo=`, does not occur unless it may, nor does `i /`,
  // the end of the EFI loaders' names.
  ghost predicate Plain(s: string, may: May) {
    && s != ""
    && (!may.disc ==> forall i :: 0 < i < |s| ==> !(s[i - 1] == 'o' && s[i] == '='))
    && (!may.efi ==> forall i :: 1 < i < |s| ==> !(s[i - 2] == 'i' && s[i - 1] == ' ' && s[i] == '/'))
  }

  // No such text begins at the end of a and goes on in b.
  predicate Joins(a: string, b: string, may: May) {
    a != "" && b != "" ==>
      && (!may.disc ==> !(a[|a| - 1] == 'o' && b[0] == '='))
      && (!may.efi ==> !(a[|a| - 1] == ' ' && b[0] == '/') && !(a[|a| - 1] == 'i' && " /" <= b))
  }

  lemma PlainThen(a: string, b: string, may: May)
    requires Plain(a, may) && Plain(b, may) && Joins(a, b, may)
    ensures Plain(a + b, may) && (a + b)[|a + b| - 1] == b[|b| - 1]
  {
    var s := a + b;
    forall i | 1 < i < |s| && !may.efi
      ensures !(s[i - 2] == 'i' && s[i - 1] == ' ' && s[i] == '/')
    {
      if i == |a| + 1 && |b| > 1 {
        assert s[i - 1] == b[0] && s[i] == b[1];
      }
    }
  }

  lemma PlainPiece(s: string, may: May)
    requires s != "" && '=' !in s && ('/' !in s || ' ' !in s)
    ensures Plain(s, may)
  {
  }

  lemma Where(s: string, part: string) returns (i: nat)
    requires Contains(s, part)
    ensures i + |part| <= |s| && forall k :: 0 <= k < |part| ==> s[i + k] == part[k]
  {
    i :| i <= |s| && part <= s[i..];
    assert forall k :: 0 <= k < |part| ==> s[i..][k] == s[i + k];
  }

  lemma RepoIsNotPlain(s: string, volid: string, may: May)
    requires !may.disc && Contains(s, " inst.repo" + "=" + "hd:LABEL" + "=" + volid)
    ensures !Plain(s, may)
  {
    var part := " inst.repo" + "=" + "hd:LABEL" + "=" + volid;
    assert part[9] == 'o' && part[10] == '=';
    var i := Where(s, part);
    assert s[i + 10 - 1] == 'o' && s[i + 10] == '=';
  }

  lemma LoaderIsNotPlain(s: string, name: string, more: string, may: May)
    requires !may.efi && |name| > 1 && name[|name| - 1] == 'i' && |more| > 1 && more[0] == ' ' && more[1] == '/'
    requires Contains(s, name + more)
    ensures !Plain(s, may)
  {
    var part, n := name + more, |name|;
    assert part[n - 1] == 'i' && part[n] == ' ' && part[n + 1] == '/';
    var i := Where(s, part);
    assert s[i + n + 1 - 2] == 'i' && s[i + n + 1 - 1] == ' ' && s[i + n + 1] == '/';
  }

  lemma MarkerEnds()
    ensures MARKER != "" && MARKER[|MARKER| - 1] == 't'
  {
    assert "edit"[3] == 't';
    hide MARKER_HEAD, Detok;
  }

  lemma Free(a: string, b: string, c: char)
    requires c !in a && c !in b
    ensures c !in a + b
  {
  }

  lemma MarkerFree(c: char)
    requires c == '=' || c == '/'
    ensures c !in MARKER
  {
    hide *;
    BootRewrite.MarkerText();
    Free("\U{2014} ", "do not edit", c);
    Free("entry ", "\U{2014} " + "do not edit", c);
    Free("unattended ", "entry " + ("\U{2014} " + "do not edit"), c);
    Free("# ks-gen ", "unattended " + ("entry " + ("\U{2014} " + "do not edit")), c);
  }

  lemma MarkerPlain(may: May)
    ensures Plain(MARKER, may) && MARKER[|MARKER| - 1] == 't'
  {
    MarkerEnds();
    MarkerFree('=');
    MarkerFree('/');
    hide MARKER;
    PlainPiece(MARKER, may);
  }

  // ----- the isolinux entry and the BIOS one are plain

  lemma TitlePlain(may: May)
    ensures Plain("  menu label ^Unattended STIG", may)
  {
    PlainPiece("  menu label ^Unattended STIG", may);
  }

  lemma MenuPlain(may: May)
    ensures Plain("\nlabel ksgen-unattended\n", may) && Plain(" install (ks-gen)\n", may)
  {
    PlainPiece("\nlabel ksgen-unattended\n", may);
    PlainPiece(" install (ks-gen)\n", may);
  }

  lemma KernelPlain(may: May)
    ensures Plain("  kernel vmlinuz\n  append initrd", may)
  {
    PlainPiece("  kernel vmlinuz\n  append initrd", may);
  }

  lemma StagePlain(may: May)
    ensures Plain("  menu default\n", may) && Plain("initrd.img inst.stage2", may)
  {
    PlainPiece("  menu default\n", may);
    PlainPiece("initrd.img inst.stage2", may);
  }

  lemma ArgsPlain(may: May)
    ensures Plain("=", may) && Plain("hd:LABEL", may) && Plain(" inst.ks", may) && Plain(":", may) && Plain("/ks.cfg quiet\n", may) && Plain("\n", may)
  {
    PlainPiece("hd:LABEL", may);
    PlainPiece(" inst.ks", may);
    assert "/ks.cfg quiet\n" == "/ks.cfg" + " quiet\n";
    PlainPiece("/ks.cfg", may);
    PlainPiece(" quiet\n", may);
    PlainThen("/ks.cfg", " quiet\n", may);
  }

  // A volume label, with what a boot argument puts in front of it.
  predicate LabelText(volid: string) {
    volid != "" && forall c :: c in volid ==> c != ' ' && c != '=' && c != '\'' && c != '\n'
  }

  lemma LabelPlain(volid: string, may: May)
    requires LabelText(volid)
    ensures Plain(volid, may)
  {
    PlainPiece(volid, may);
  }

  // text + "=" + "hd:LABEL" + "=" + volid
  lemma NamesDisc(text: string, volid: string, may: May)
    requires Plain(text, may) && text[|text| - 1] != 'o' && LabelText(volid)
    ensures var s := text + "=" + "hd:LABEL" + "=" + volid; Plain(s, may) && s[|s| - 1] == volid[|volid| - 1]
  {
    ArgsPlain(may);
    LabelPlain(volid, may);
    hide Plain;
    PlainThen(text, "=", may);
    PlainThen(text + "=", "hd:LABEL", may);
    PlainThen(text + "=" + "hd:LABEL", "=", may);
    PlainThen(text + "=" + "hd:LABEL" + "=", volid, may);
  }

  lemma IsolinuxHeadPlain(volid: string, may: May)
    requires LabelText(volid)
    ensures Plain(ISOLINUX_HEAD + volid, may) && ISOLINUX_HEAD != ""
  {
    MarkerPlain(may);
    TitlePlain(may);
    MenuPlain(may);
    KernelPlain(may);
    StagePlain(may);
    ArgsPlain(may);
    hide Plain, MARKER;
    var a := MARKER + "\nlabel ksgen-unattended\n";
    PlainThen(MARKER, "\nlabel ksgen-unattended\n", may);
    var b := a + "  menu label ^Unattended STIG";
    PlainThen(a, "  menu label ^Unattended STIG", may);
    var c := b + " install (ks-gen)\n";
    PlainThen(b, " install (ks-gen)\n", may);
    var d := c + "  menu default\n";
    PlainThen(c, "  menu default\n", may);
    var e := d + "  kernel vmlinuz\n  append initrd";
    PlainThen(d, "  kernel vmlinuz\n  append initrd", may);
    PlainThen(e, "=", may);
    PlainThen(e + "=", "initrd.img inst.stage2", may);
    NamesDisc(e + "=" + "initrd.img inst.stage2", volid, may);
  }

  // The end of both entries' boot lines.
  lemma KsPlain(s: string, volid: string, may: May)
    requires Plain(s, may) && LabelText(volid)
    ensures Plain(s + (" inst.ks" + "=" + "hd:LABEL" + "=") + volid + ":", may)
  {
    ArgsPlain(may);
    assert " inst.ks"[1] == 'i';
    hide Plain;
    PlainThen(s, " inst.ks", may);
    NamesDisc(s + " inst.ks", volid, may);
    assert s + (" inst.ks" + "=" + "hd:LABEL" + "=") + volid == s + " inst.ks" + "=" + "hd:LABEL" + "=" + volid;
    PlainThen(s + " inst.ks" + "=" + "hd:LABEL" + "=" + volid, ":", may);
  }

  lemma MenuEntryPlain(may: May)
    ensures Plain("\nmenuentry 'Unattended STIG", may) && Plain(" install (ks-gen)' ", may)
  {
    PlainPiece("\nmenuentry 'Unattended STIG", may);
    PlainPiece(" install (ks-gen)' ", may);
  }

  lemma ClassPlain(may: May)
    ensures Plain("--class fedora --class gnu-linux", may)
  {
    PlainPiece("--class fedora --class gnu-linux", may);
  }

  lemma OsPlain(may: May)
    ensures Plain(" --class gnu --class os {\n", may)
  {
    PlainPiece(" --class gnu --class os {\n", may);
  }

  lemma SearchPlain(may: May)
    ensures Plain("  search --no-floppy --set", may) && Plain("root -l ", may) && Plain("'", may)
  {
    PlainPiece("  search --no-floppy --set", may);
    PlainPiece("root -l ", may);
  }

  lemma GrubHeadPlain(volid: string, may: May)
    requires LabelText(volid)
    ensures Plain(GRUB_HEAD + volid, may) && GRUB_HEAD != ""
  {
    MarkerPlain(may);
    MenuEntryPlain(may);
    ClassPlain(may);
    OsPlain(may);
    SearchPlain(may);
    ArgsPlain(may);
    LabelPlain(volid, may);
    hide Plain, MARKER;
    var a := MARKER + "\nmenuentry 'Unattended STIG";
    PlainThen(MARKER, "\nmenuentry 'Unattended STIG", may);
    var b := a + " install (ks-gen)' ";
    PlainThen(a, " install (ks-gen)' ", may);
    var c := b + "--class fedora --class gnu-linux";
    PlainThen(b, "--class fedora --class gnu-linux", may);
    var d := c + " --class gnu --class os {\n";
    PlainThen(c, " --class gnu --class os {\n", may);
    var e := d + "  search --no-floppy --set";
    PlainThen(d, "  search --no-floppy --set", may);
    PlainThen(e, "=", may);
    PlainThen(e + "=", "root -l ", may);
    PlainThen(e + "=" + "root -l ", "'", may);
    PlainThen(e + "=" + "root -l " + "'", volid, may);
  }

  lemma LoadersPlain(may: May)
    ensures Plain(if may.efi then "linuxefi" else "linux", may) && Plain(if may.efi then "initrdefi" else "initrd", may)
  {
    PlainPiece(if may.efi then "linuxefi" else "linux", may);
    PlainPiece(if may.efi then "initrdefi" else "initrd", may);
  }

  lemma VmlinuzPlain(may: May)
    ensures Plain(" /images/pxeboot/vmlinuz", may)
  {
    SpacePlain("/images/pxeboot/vmlinuz", may);
    assert " " + "/images/pxeboot/vmlinuz" == " /images/pxeboot/vmlinuz";
  }

  lemma Stage2Plain(may: May)
    ensures Plain(" inst.stage2", may)
  {
    PlainPiece(" inst.stage2", may);
  }

  lemma ImagesPlain(may: May)
    ensures Plain(" /images/pxeboot/vmlinuz", may) && Plain(" inst.stage2", may)
  {
    VmlinuzPlain(may);
    Stage2Plain(may);
  }

  lemma SpacePlain(s: string, may: May)
    requires s != "" && ' ' !in s && '=' !in s
    ensures Plain(" " + s, may)
  {
    assert forall k :: 0 < k < |" " + s| ==> (" " + s)[k] == s[k - 1] && s[k - 1] in s;
  }

  lemma InitrdPlain(may: May)
    ensures Plain(" /images/pxeboot/initrd.img\n}\n", may) && Plain("\n  ", may)
  {
    SpacePlain("/images/pxeboot/initrd.img\n}\n", may);
    assert " " + "/images/pxeboot/initrd.img\n}\n" == " /images/pxeboot/initrd.img\n}\n";
    PlainPiece("\n  ", may);
  }

  lemma QuietPlain(may: May)
    ensures Plain("/ks.cfg quiet\n  ", may)
  {
    PlainPiece("/ks.cfg", may);
    PlainPiece(" quiet\n  ", may);
    PlainThen("/ks.cfg", " quiet\n  ", may);
    assert "/ks.cfg" + " quiet\n  " == "/ks.cfg quiet\n  ";
  }

  lemma LoaderPlain(s: string, may: May)
    requires Plain(s, may)
    ensures var boot := s + "'" + "\n  " + (if may.efi then "linuxefi" else "linux") + " /images/pxeboot/vmlinuz";
      Plain(boot, may) && boot[|boot| - 1] == 'z'
  {
    var linux := if may.efi then "linuxefi" else "linux";
    var image := " /images/pxeboot/vmlinuz";
    SearchPlain(may);
    LoadersPlain(may);
    ImagesPlain(may);
    InitrdPlain(may);
    assert image[0] == ' ' && image[|image| - 1] == 'z';
    assert !may.efi ==> linux[4] == 'x';
    hide Plain;
    PlainThen(s, "'", may);
    PlainThen(s + "'", "\n  ", may);
    PlainThen(s + "'" + "\n  ", linux, may);
    PlainThen(s + "'" + "\n  " + linux, image, may);
  }

  // s + GrubBoot(kind) + volid, for either loader
  lemma GrubBootPlain(s: string, volid: string, may: May)
    requires Plain(s, may) && LabelText(volid)
    ensures var linux := if may.efi then "linuxefi" else "linux";
      Plain(s + ("'" + "\n  " + linux + " /images/pxeboot/vmlinuz" + " inst.stage2" + "=" + "hd:LABEL" + "=") + volid, may)
  {
    var linux := if may.efi then "linuxefi" else "linux";
    var image, stage := " /images/pxeboot/vmlinuz", " inst.stage2";
    LoaderPlain(s, may);
    ImagesPlain(may);
    assert stage[1] == 'i' && stage[|stage| - 1] == '2';
    hide Plain;
    var boot := s + "'" + "\n  " + linux + image;
    PlainThen(boot, stage, may);
    NamesDisc(boot + stage, volid, may);
    Grouped(s, "'" + "\n  " + linux + image, stage, "=", "hd:LABEL", volid);
    assert boot == s + ("'" + "\n  " + linux + image);
  }

  lemma Grouped(s: string, boot: string, stage: string, eq: string, disc: string, volid: string)
    ensures s + (boot + stage + eq + disc + eq) + volid == (s + boot) + stage + eq + disc + eq + volid
  {
  }

  // s + GrubTail(kind) + "\n"
  lemma GrubTailPlain(s: string, may: May)
    requires Plain(s + ":", may)
    ensures var initrd := if may.efi then "initrdefi" else "initrd";
      Plain(s + (":" + "/ks.cfg quiet\n  " + initrd + " /images/pxeboot/initrd.img\n}\n") + "\n", may)
  {
    var initrd := if may.efi then "initrdefi" else "initrd";
    var image := " /images/pxeboot/initrd.img\n}\n";
    LoadersPlain(may);
    InitrdPlain(may);
    QuietPlain(may);
    ArgsPlain(may);
    assert image[|image| - 1] == '\n';
    assert !may.efi ==> initrd[5] == 'd';
    hide Plain;
    PlainThen(s + ":", "/ks.cfg quiet\n  ", may);
    PlainThen(s + ":" + "/ks.cfg quiet\n  ", initrd, may);
    PlainThen(s + ":" + "/ks.cfg quiet\n  " + initrd, image, may);
    PlainThen(s + ":" + "/ks.cfg quiet\n  " + initrd + image, "\n", may);
    assert s + (":" + "/ks.cfg quiet\n  " + initrd + image) + "\n" == s + ":" + "/ks.cfg quiet\n  " + initrd + image + "\n";
  }

  // The package source, where there may be one.
  lemma RepoPlain(s: string, volid: string, may: May)
    requires Plain(s, may) && LabelText(volid)
    ensures Plain(s + (if may.disc then " inst.repo" + "=" + "hd:LABEL" + "=" + volid else ""), may)
  {
    if may.disc {
      assert " inst.repo"[1] == 'i';
      PlainPiece(" inst.repo", may);
      ArgsPlain(may);
      LabelPlain(volid, may);
      hide Plain;
      PlainThen(s, " inst.repo", may);
      PlainThen(s + " inst.repo", "=", may);
      PlainThen(s + " inst.repo" + "=", "hd:LABEL", may);
      PlainThen(s + " inst.repo" + "=" + "hd:LABEL", "=", may);
      PlainThen(s + " inst.repo" + "=" + "hd:LABEL" + "=", volid, may);
      Flat(s, " inst.repo", "=", "hd:LABEL", volid);
    } else {
      assert s + "" == s;
    }
  }

  lemma Flat(s: string, repo: string, eq: string, disc: string, volid: string)
    ensures s + (repo + eq + disc + eq + volid) == s + repo + eq + disc + eq + volid
  {
  }

  function Holds(kind: Kind, network: bool): May {
    May(!network, kind == GrubEfi)
  }

  lemma IsolinuxParts(volid: string, network: bool)
    ensures EntryText(Isolinux, volid, network)
         == ISOLINUX_HEAD + volid + (if network then "" else REPO + volid) + KS + volid + ISOLINUX_TAIL + "\n"
  {
    hide MARKER;
    BootIs(ISOLINUX_HEAD, network, REPO, KS, ISOLINUX_TAIL, volid);
    hide Fill, ISOLINUX_HEAD, ISOLINUX_TAIL, REPO, KS;
  }

  lemma GrubParts(kind: Kind, volid: string, network: bool)
    requires kind != Isolinux
    ensures EntryText(kind, volid, network)
         == GRUB_HEAD + volid + GrubBoot(kind) + volid + (if network then "" else REPO + volid) + KS + volid + GrubTail(kind) + "\n"
  {
    hide MARKER;
    GrubIs(GRUB_HEAD, GrubBoot(kind), network, REPO, KS, GrubTail(kind), volid);
    hide Fill, GRUB_HEAD, GrubBoot, GrubTail, REPO, KS;
  }

  lemma DiscPlain(s: string, volid: string, may: May)
    requires Plain(s, may) && LabelText(volid)
    ensures Plain(s + (if may.disc then REPO + volid else ""), may)
    ensures forall t :: Plain(t, may) ==> Plain(t + KS + volid + ":", may)
  {
    RepoPlain(s, volid, may);
    forall t | Plain(t, may)
      ensures Plain(t + KS + volid + ":", may)
    {
      KsPlain(t, volid, may);
    }
  }

  lemma IsolinuxTailPlain(s: string, may: May)
    requires Plain(s + ":", may)
    ensures Plain(s + ISOLINUX_TAIL + "\n", may)
  {
    ArgsPlain(may);
    hide Plain;
    PlainThen(s + ":", "/ks.cfg quiet\n", may);
    PlainThen(s + ":" + "/ks.cfg quiet\n", "\n", may);
    assert s + ISOLINUX_TAIL + "\n" == s + ":" + "/ks.cfg quiet\n" + "\n";
  }

  lemma GrubPiecesPlain(s: string, volid: string, kind: Kind, may: May)
    requires kind != Isolinux && may.efi == (kind == GrubEfi) && LabelText(volid)
    ensures Plain(s, may) ==> Plain(s + GrubBoot(kind) + volid, may)
    ensures Plain(s + ":", may) ==> Plain(s + GrubTail(kind) + "\n", may)
  {
    hide Plain;
    if Plain(s, may) {
      GrubBootPlain(s, volid, may);
    }
    if Plain(s + ":", may) {
      GrubTailPlain(s, may);
    }
  }

  lemma EntryPlain(kind: Kind, volid: string, network: bool)
    requires LabelText(volid)
    ensures Plain(EntryText(kind, volid, network), May(!network, kind == GrubEfi))
  {
    hide *;
    var may := May(!network, kind == GrubEfi);
    var repo := if network then "" else REPO + volid;
    if kind == Isolinux {
      IsolinuxParts(volid, network);
      var head := ISOLINUX_HEAD + volid;
      IsolinuxHeadPlain(volid, may);
      DiscPlain(head, volid, may);
      assert Plain(head + repo + KS + volid + ":", may);
      IsolinuxTailPlain(head + repo + KS + volid, may);
    } else {
      GrubParts(kind, volid, network);
      var head := GRUB_HEAD + volid;
      GrubHeadPlain(volid, may);
      GrubPiecesPlain(head, volid, kind, may);
      var boot := head + GrubBoot(kind) + volid;
      DiscPlain(boot, volid, may);
      assert Plain(boot + repo + KS + volid + ":", may);
      GrubPiecesPlain(boot + repo + KS + volid, volid, kind, may);
    }
  }

  // ----- what every entry holds

  lemma LabelTexts(cls: Classes, volid: string)
    requires Sensible(cls) && IsLabel(cls, volid)
    ensures LabelText(volid)
  {
  }

  // The entry takes its packages from the disc exactly when the install is not
  // from the network.
  lemma RepoIff(cls: Classes, kind: Kind, volid: string, network: bool)
    requires Sensible(cls) && IsLabel(cls, volid)
    ensures Contains(EntryText(kind, volid, network), " inst.repo=hd:LABEL=" + volid) <==> !network
  {
    LabelTexts(cls, volid);
    EntryPlain(kind, volid, network);
    RepoText();
    hide *;
    var text := EntryText(kind, volid, network);
    if network {
      if Contains(text, " inst.repo" + "=" + "hd:LABEL" + "=" + volid) {
        RepoIsNotPlain(text, volid, May(false, kind == GrubEfi));
      }
    } else if kind == Isolinux {
      IsolinuxParts(volid, network);
      HoldsPart(ISOLINUX_HEAD + volid, REPO + volid, KS + volid + ISOLINUX_TAIL + "\n");
      Tail4(ISOLINUX_HEAD + volid + (REPO + volid), KS, volid, ISOLINUX_TAIL, "\n");
    } else {
      GrubParts(kind, volid, network);
      var head := GRUB_HEAD + volid + GrubBoot(kind) + volid;
      HoldsPart(head, REPO + volid, KS + volid + GrubTail(kind) + "\n");
      Tail4(head + (REPO + volid), KS, volid, GrubTail(kind), "\n");
    }
  }

  lemma Tail4(s: string, a: string, b: string, c: string, d: string)
    ensures s + a + b + c + d == s + (a + b + c + d)
  {
  }

  lemma RepoText()
    ensures " inst.repo" + "=" + "hd:LABEL" + "=" == " inst.repo=hd:LABEL=" == REPO
  {
  }

  lemma KsText()
    ensures " inst.ks" + "=" + "hd:LABEL" + "=" == " inst.ks=hd:LABEL=" == KS
    ensures forall kind :: kind != Isolinux ==> ":/ks.cfg" <= GrubTail(kind)
    ensures ":/ks.cfg" <= ISOLINUX_TAIL
  {
    assert ":" + "/ks.cfg" == ":/ks.cfg";
    assert "/ks.cfg" <= "/ks.cfg quiet\n" && "/ks.cfg" <= "/ks.cfg quiet\n  ";
  }

  // It always names the kickstart on the disc.
  lemma KickstartNamed(kind: Kind, volid: string, network: bool)
    ensures Contains(EntryText(kind, volid, network), " inst.ks=hd:LABEL=" + volid + ":/ks.cfg")
  {
    KsText();
    hide *;
    var repo := if network then "" else REPO + volid;
    if kind == Isolinux {
      IsolinuxParts(volid, network);
      KsIn(ISOLINUX_HEAD + volid + repo, volid, ISOLINUX_TAIL);
    } else {
      GrubParts(kind, volid, network);
      KsIn(GRUB_HEAD + volid + GrubBoot(kind) + volid + repo, volid, GrubTail(kind));
    }
  }

  lemma KsIn(head: string, volid: string, tail: string)
    requires ":/ks.cfg" <= tail
    ensures Contains(head + KS + volid + tail + "\n", KS + volid + ":/ks.cfg")
  {
    hide KS;
    var rest := tail[|":/ks.cfg"|..];
    HoldsPart(head, KS + volid + ":/ks.cfg", rest + "\n");
    assert tail == ":/ks.cfg" + rest;
    assert head + KS + volid + tail + "\n" == head + (KS + volid + ":/ks.cfg") + (rest + "\n");
  }

  lemma LinuxText()
    ensures var boot := "'" + "\n  " + "linuxefi" + " /images/pxeboot/vmlinuz" + " inst.stage2" + "=" + "hd:LABEL" + "=";
      GrubBoot(GrubEfi) == boot && Contains(boot, " linuxefi" + " /images")
  {
    hide Contains;
    var linux := "linuxefi";
    var image, more := " /images/pxeboot/vmlinuz", " inst.stage2" + "=" + "hd:LABEL" + "=";
    assert image == " /images" + "/pxeboot/vmlinuz" && "\n  " == "\n " + " " && " " + linux == " linuxefi";
    HoldsPart("'" + "\n ", " linuxefi" + " /images", "/pxeboot/vmlinuz" + more);
    LoaderIn("'", "\n ", linux, "/pxeboot/vmlinuz", " inst.stage2", "=", "hd:LABEL");
  }

  lemma InitrdText()
    ensures var tail := ":" + "/ks.cfg quiet\n  " + "initrdefi" + " /images/pxeboot/initrd.img\n}\n";
      GrubTail(GrubEfi) == tail && Contains(tail, " initrdefi" + " /images")
  {
    hide Contains;
    var initrd, tail := "initrdefi", " /images/pxeboot/initrd.img\n}\n";
    assert tail == " /images" + "/pxeboot/initrd.img\n}\n" && " " + initrd == " initrdefi";
    assert "/ks.cfg quiet\n  " == "/ks.cfg quiet\n " + " ";
    HoldsPart(":" + "/ks.cfg quiet\n ", " initrdefi" + " /images", "/pxeboot/initrd.img\n}\n");
    InitrdIn(":", "/ks.cfg quiet\n ", initrd, "/pxeboot/initrd.img\n}\n");
  }

  lemma LoaderIn(quote: string, line: string, linux: string, image: string, stage: string, eq: string, disc: string)
    ensures quote + (line + " ") + linux + (" /images" + image) + stage + eq + disc + eq
         == quote + line + ((" " + linux) + " /images") + (image + (stage + eq + disc + eq))
  {
  }

  lemma InitrdIn(colon: string, quiet: string, initrd: string, image: string)
    ensures colon + (quiet + " ") + initrd + (" /images" + image) == colon + quiet + ((" " + initrd) + " /images") + image
  {
  }

  lemma EfiLoads(volid: string, network: bool)
    ensures Contains(EntryText(GrubEfi, volid, network), " linuxefi" + " /images")
    ensures Contains(EntryText(GrubEfi, volid, network), " initrdefi" + " /images")
  {
    hide *;
    LinuxText();
    InitrdText();
    GrubParts(GrubEfi, volid, network);
    var repo := if network then "" else REPO + volid;
    var head, boot, tail := GRUB_HEAD + volid, GrubBoot(GrubEfi), GrubTail(GrubEfi);
    HoldsMore(head, boot, volid + repo + KS + volid + tail + "\n", " linuxefi" + " /images");
    Tail6(head + boot, volid, repo, KS, volid, tail, "\n");
    HoldsMore(head + boot + volid + repo + KS + volid, tail, "\n", " initrdefi" + " /images");
  }

  lemma LoaderEnds()
    ensures |" linuxefi"| > 1 && " linuxefi"[|" linuxefi"| - 1] == 'i'
    ensures |" initrdefi"| > 1 && " initrdefi"[|" initrdefi"| - 1] == 'i'
    ensures |" /images"| > 1 && " /images"[0] == ' ' && " /images"[1] == '/'
  {
    assert " linuxefi"[8] == 'i' && " initrdefi"[9] == 'i' && |" linuxefi"| == 9 && |" initrdefi"| == 10;
  }

  // It loads with `linuxefi` and `initrdefi` exactly in an EFI grub config.
  lemma LoaderIff(cls: Classes, kind: Kind, volid: string, network: bool)
    requires Sensible(cls) && IsLabel(cls, volid)
    ensures Contains(EntryText(kind, volid, network), " linuxefi" + " /images") <==> kind == GrubEfi
    ensures Contains(EntryText(kind, volid, network), " initrdefi" + " /images") <==> kind == GrubEfi
  {
    hide *;
    if kind == GrubEfi {
      EfiLoads(volid, network);
    } else {
      LabelTexts(cls, volid);
      EntryPlain(kind, volid, network);
      LoaderEnds();
      var text, may := EntryText(kind, volid, network), May(!network, false);
      if Contains(text, " linuxefi" + " /images") {
        LoaderIsNotPlain(text, " linuxefi", " /images", may);
      }
      if Contains(text, " initrdefi" + " /images") {
        LoaderIsNotPlain(text, " initrdefi", " /images", may);
      }
    }
  }

  lemma Tail6(s: string, a: string, b: string, c: string, d: string, e: string, f: string)
    ensures s + a + b + c + d + e + f == s + (a + b + c + d + e + f)
  {
  }
}
