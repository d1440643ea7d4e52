/** What a host.yaml comes to, rule by rule: the ids that a rendered tailoring
    deselects and selects, the ids that are managed, the %post blocks and their
    order, the packages. */
module Catalogue {
  import opened Prelude
  import opened TailoringXml
  import opened TailoringDrift
  import opened Rules
  import opened RunOrder
  import opened Render

  // ----- names of the lists

  function SsgId(name: string): (r: string)
    ensures r == SsgRule(name)
  {
    "xccdf_org.ssgproject.content_rule_" + name
  }

  ghost predicate IdOf(id: string, names: seq<string>) {
    exists name :: name in names && id == SsgId(name)
  }

  lemma {:induction false} RulesHave(names: seq<string>, id: string)
    ensures id in SsgRules(names) <==> IdOf(id, names)
  {
    hide SsgRule, SsgId;
    if names != [] {
      RulesHave(names[1..], id);
      assert SsgId(names[0]) == SsgRule(names[0]);
      assert forall name :: name in names <==> name == names[0] || name in names[1..];
    }
  }

  const BANNER_NAMES := ["banner_etc_issue", "dconf_gnome_banner_enabled", "dconf_gnome_login_banner_text"]
  const USBGUARD_NAMES := ["package_usbguard_installed", "service_usbguard_enabled", "configure_usbguard_auditbackend"]
  const FIPS_NAMES := [
    "enable_fips_mode", "fips_crypto_subpolicy",
    "harden_sshd_ciphers_openssh_conf_crypto_policy", "harden_sshd_ciphers_opensshserver_conf_crypto_policy",
    "harden_sshd_macs_openssh_conf_crypto_policy", "harden_sshd_macs_opensshserver_conf_crypto_policy",
    "sysctl_crypto_fips_enabled"
  ]
  const CHRONY_NAMES := [
    "chronyd_or_ntpd_set_maxpoll", "chronyd_client_only", "chronyd_no_chronyc_network", "chronyd_server_directive"]

  lemma ListsHave(distro: Distro, id: string)
    ensures id in BannerTailored() <==> IdOf(id, BANNER_NAMES)
    ensures id in UsbguardRules() <==> IdOf(id, USBGUARD_NAMES)
    ensures id in ChronyRules() <==> IdOf(id, CHRONY_NAMES)
    ensures id in CryptoTailored(distro)
       <==> IdOf(id, FIPS_NAMES)
            || id == SsgRule(if distro == Alma10 then "system_booted_in_fips_mode" else "enable_dracut_fips_module")
  {
    hide SsgRule, SsgRules, IdOf;
    RulesHave(BANNER_NAMES, id);
    RulesHave(USBGUARD_NAMES, id);
    RulesHave(CHRONY_NAMES, id);
    RulesHave(FIPS_ONLY_COMMON, id);
    OneRule(if distro == Alma10 then "system_booted_in_fips_mode" else "enable_dracut_fips_module");
  }

  lemma OneRule(name: string)
    ensures SsgRules([name]) == [SsgRule(name)]
  {
    hide SsgRule;
    assert [name][1..] == [];
  }

  // ----- deselected and selected

  predicate DiskActionOk(a: AuditAction) {
    a == Syslog || a == Single || a == Halt
  }

  // What a rule of the catalogue deselects.
  ghost predicate Waived(cfg: Config, id: string) {
    || IdOf(id, BANNER_NAMES)
    || (cfg.policy != Stig && IdOf(id, FIPS_NAMES))
    || (cfg.policy != Stig && cfg.distro == Alma10 && id == SsgId("system_booted_in_fips_mode"))
    || (cfg.policy != Stig && cfg.distro != Alma10 && id == SsgId("enable_dracut_fips_module"))
    || (cfg.faillock.enable && !cfg.faillock.evenDenyRoot && id == SsgId("accounts_passwords_pam_faillock_deny_root"))
    || (cfg.distro == Alma10 && !cfg.nts && id == SsgId("chrony_set_nts"))
    || (!cfg.usbguard && IdOf(id, USBGUARD_NAMES))
    || (cfg.distro == Alma9 && AuditWaived(cfg.auditd, id))
  }

  predicate AuditWaived(a: Auditd, id: string) {
    || (!DiskActionOk(a.diskFull) && id == SsgId("auditd_data_disk_full_action_stig"))
    || (!DiskActionOk(a.diskError) && id == SsgId("auditd_data_disk_error_action_stig"))
    || (a.maxLogFile != Rotate && a.maxLogFile != Single && id == SsgId("auditd_data_retention_max_log_file_action_stig"))
  }

  ghost predicate OperatorWaives(cfg: Config, id: string) {
    exists e :: e in cfg.exceptions && id in e.stigRulesDisabled
  }

  lemma {:induction false} DeclaredIff(exceptions: seq<ExceptionDecl>, id: string)
    ensures id in DeclaredIds(exceptions) <==> exists e :: e in exceptions && id in e.stigRulesDisabled
  {
    if exceptions != [] {
      var init, last := exceptions[..|exceptions| - 1], exceptions[|exceptions| - 1];
      assert exceptions == init + [last];
      DeclaredIff(init, id);
    }
  }

  lemma {:induction false} AuditDisabledIff(settings: seq<Setting>, id: string)
    ensures id in AuditDisabled(settings) <==> exists s :: s in settings && s.FailsCheck() && s.rule == Some(id)
  {
    if settings != [] {
      AuditDisabledIff(settings[1..], id);
      assert forall s :: s in settings <==> s == settings[0] || s in settings[1..];
    }
  }

  lemma Alma9Settings(cfg: Config)
    requires cfg.distro == Alma9
    ensures var all := Settings(cfg);
      && |all| == 3
      && all[0].rule == Some(SsgRule("auditd_data_disk_full_action_stig"))
      && all[1].rule == Some(SsgRule("auditd_data_disk_error_action_stig"))
      && all[2].rule == Some(SsgRule("auditd_data_retention_max_log_file_action_stig"))
      && (all[0].FailsCheck() <==> !DiskActionOk(cfg.auditd.diskFull))
      && (all[1].FailsCheck() <==> !DiskActionOk(cfg.auditd.diskError))
      && (all[2].FailsCheck() <==> cfg.auditd.maxLogFile != Rotate && cfg.auditd.maxLogFile != Single)
  {
    hide SsgRule;
  }

  lemma OthersPass(cfg: Config)
    requires cfg.distro != Alma9
    ensures forall s :: s in Settings(cfg) ==> !s.FailsCheck()
  {
    hide SsgRule;
  }

  lemma AuditIds(cfg: Config, id: string)
    ensures id in AuditDisabled(Settings(cfg)) <==> cfg.distro == Alma9 && AuditWaived(cfg.auditd, id)
  {
    AuditDisabledIff(Settings(cfg), id);
    if cfg.distro == Alma9 {
      Alma9Settings(cfg);
      hide Settings, SsgRule, AuditDisabled, DiskActionOk;
      var all := Settings(cfg);
      assert forall s :: s in all <==> s == all[0] || s == all[1] || s == all[2];
      assert all[0] in all && all[1] in all && all[2] in all;
    } else {
      OthersPass(cfg);
    }
  }

  // What each rule that applies deselects.
  ghost predicate RuleWaives(n: RuleName, cfg: Config, id: string) {
    match n
    case BannerText => IdOf(id, BANNER_NAMES)
    case CryptoPolicyRule =>
      cfg.policy != Stig
      && (IdOf(id, FIPS_NAMES)
          || id == SsgId(if cfg.distro == Alma10 then "system_booted_in_fips_mode" else "enable_dracut_fips_module"))
    case FaillockSafety =>
      cfg.faillock.enable && !cfg.faillock.evenDenyRoot && id == SsgId("accounts_passwords_pam_faillock_deny_root")
    case TimeServers =>
      cfg.distro == Alma10 && !cfg.nts && id == SsgId("chrony_set_nts") && !OperatorWaives(cfg, id)
    case Usbguard => !cfg.usbguard && IdOf(id, USBGUARD_NAMES)
    case AuditdActions => cfg.distro == Alma9 && AuditWaived(cfg.auditd, id)
    case _ => false
  }

  lemma EntryIs(n: RuleName, cfg: Config, id: string)
    ensures Applies(n, cfg) && id in EntryIds(n, cfg) <==> RuleWaives(n, cfg, id)
  {
    ListsHave(cfg.distro, id);
    AuditIds(cfg, id);
    DeclaredIff(cfg.exceptions, id);
    EntryOfAudit(cfg, id);
    hide AuditDisabled, Settings, BannerTailored, UsbguardRules, CryptoTailored, SsgRule, IdOf, AuditWaived, DeclaredIds;
    hide OperatorWaives;
    match n
    case BannerText =>
    case CryptoPolicyRule =>
    case FaillockSafety =>
    case TimeServers => OperatorIs(cfg, id);
    case Usbguard =>
    case AuditdActions =>
    case _ =>
  }

  lemma OperatorIs(cfg: Config, id: string)
    ensures OperatorWaives(cfg, id) <==> id in DeclaredIds(cfg.exceptions)
  {
    DeclaredIff(cfg.exceptions, id);
  }

  lemma WaivedIs(cfg: Config, id: string)
    ensures Waived(cfg, id) || OperatorWaives(cfg, id) <==> (exists n :: RuleWaives(n, cfg, id)) || OperatorWaives(cfg, id)
  {
    hide IdOf, SsgRule, AuditWaived, OperatorWaives;
    assert RuleWaives(BannerText, cfg, id) <==> IdOf(id, BANNER_NAMES);
    assert RuleWaives(Usbguard, cfg, id) <==> !cfg.usbguard && IdOf(id, USBGUARD_NAMES);
    assert RuleWaives(AuditdActions, cfg, id) <==> cfg.distro == Alma9 && AuditWaived(cfg.auditd, id);
    assert RuleWaives(FaillockSafety, cfg, id) ==> Waived(cfg, id);
    assert RuleWaives(TimeServers, cfg, id) ==> Waived(cfg, id);
    assert RuleWaives(CryptoPolicyRule, cfg, id) ==> Waived(cfg, id);
  }

  lemma EntriesAre(cfg: Config, id: string)
    ensures (exists n :: Applies(n, cfg) && id in EntryIds(n, cfg)) || OperatorWaives(cfg, id)
       <==> Waived(cfg, id) || OperatorWaives(cfg, id)
  {
    WaivedIs(cfg, id);
    hide Applies, EntryIds, RuleWaives, Waived, OperatorWaives;
    forall n
      ensures Applies(n, cfg) && id in EntryIds(n, cfg) <==> RuleWaives(n, cfg, id)
    {
      EntryIs(n, cfg, id);
    }
  }

  // The rule has an entry whenever some check fails.
  lemma EntryOfAudit(cfg: Config, id: string)
    ensures id in EntryIds(AuditdActions, cfg) <==> id in AuditDisabled(Settings(cfg))
  {
    AuditValuesOnly(Settings(cfg));
    hide Settings, AuditDisabled;
  }

  // For every distro and host.yaml, the ids that the rendered tailoring leaves
  // deselected.
  lemma DeselectedExactly(order: seq<RuleName>, cfg: Config, id: string)
    requires IsRunOrder(order)
    ensures LastSelection(TailoringOps(order, cfg), id) == Some(Disable) <==> Waived(cfg, id) || OperatorWaives(cfg, id)
  {
    DeselectedAreExpected(order, cfg, id);
    DeclaredIff(cfg.exceptions, id);
    EntriesAre(cfg, id);
    hide LastSelection, Applies, EntryIds, Waived, OperatorWaives, TailoringOps;
  }

  // It selects usbguard's rules, when usbguard is on and no exception names them,
  // and nothing else.
  lemma SelectedExactly(order: seq<RuleName>, cfg: Config, id: string)
    requires IsRunOrder(order)
    ensures LastSelection(TailoringOps(order, cfg), id) == Some(Select)
       <==> cfg.usbguard && IdOf(id, USBGUARD_NAMES) && !OperatorWaives(cfg, id)
  {
    ListsHave(cfg.distro, id);
    OperatorIs(cfg, id);
    hide LastSelection, EmitTailoring, EntryIds, UsbguardRules, WithAction, Applies, IdOf, OperatorWaives, DeclaredIds;
    DisablesWin(RuleOps(order, cfg), Dedup(DeclaredIds(cfg.exceptions)), id);
    RuleOpsActions(order, cfg, id);
    if cfg.usbguard && id in UsbguardRules() {
      SelectedNeverDeclared(order, cfg, id);
    }
    UnmixedSelect(RuleOps(order, cfg), id);
  }

  lemma {:induction false} UnmixedSelect(ops: seq<TailoringOp>, id: string)
    requires !(id in WithAction(ops, Select) && id in WithAction(ops, Disable))
    ensures LastSelection(ops, id) == Some(Select) <==> id in WithAction(ops, Select)
  {
    if ops != [] {
      var init, last := ops[..|ops| - 1], ops[|ops| - 1];
      assert ops == init + [last];
      WithActionConcat(init, [last]);
      UnmixedSelect(init, id);
    }
  }

  // ----- managed

  predicate FipsModeRule(distro: Distro, id: string) {
    id == SsgId(if distro == Alma10 then "system_booted_in_fips_mode" else "enable_dracut_fips_module")
  }

  predicate InitFilesRule(distro: Distro, id: string) {
    id == SsgId(if distro == Alma10 then "file_permission_user_init_files" else "file_permission_user_init_files_root")
  }

  predicate NtsRuleOf(distro: Distro, id: string) {
    distro == Alma10 && id == SsgId("chrony_set_nts")
  }

  predicate DenyRootEnforced(cfg: Config, id: string) {
    cfg.faillock.enable && id == SsgId("accounts_passwords_pam_faillock_deny_root")
  }

  predicate RngdEnforced(cfg: Config, id: string) {
    && cfg.distro == Alma8 && "rng-tools" !in cfg.excludedPackages
    && (id == SsgId("package_rng-tools_installed") || id == SsgId("service_rngd_enabled"))
  }

  // What the rules that apply enforce.
  ghost predicate Enforced(cfg: Config, id: string) {
    || IdOf(id, BANNER_NAMES) || IdOf(id, FIPS_NAMES) || IdOf(id, USBGUARD_NAMES) || IdOf(id, CHRONY_NAMES)
    || FipsModeRule(cfg.distro, id) || NtsRuleOf(cfg.distro, id) || InitFilesRule(cfg.distro, id)
    || DenyRootEnforced(cfg, id) || RngdEnforced(cfg, id) || AuditEnforced(cfg.distro, id)
  }

  predicate AuditEnforced(distro: Distro, id: string) {
    match distro
    case Alma8 => id == SsgId("auditd_data_disk_full_action") || id == SsgId("auditd_data_disk_error_action")
    case Alma9 =>
      id == SsgId("auditd_data_disk_full_action_stig") || id == SsgId("auditd_data_disk_error_action_stig")
      || id == SsgId("auditd_data_retention_max_log_file_action_stig")
    case Alma10 => false
  }

  lemma {:induction false} AuditAffectedIff(settings: seq<Setting>, id: string)
    ensures id in AuditAffected(settings) <==> exists s :: s in settings && s.rule == Some(id)
  {
    if settings != [] {
      AuditAffectedIff(settings[1..], id);
      assert forall s :: s in settings <==> s == settings[0] || s in settings[1..];
    }
  }

  lemma AuditAffectedIs(cfg: Config, id: string)
    ensures id in AuditAffected(Settings(cfg)) <==> AuditEnforced(cfg.distro, id)
  {
    AuditAffectedIff(Settings(cfg), id);
    hide SsgRule, AuditAffected;
    var all := Settings(cfg);
    assert forall s :: s in all <==> s == all[0] || s == all[1] || s == all[2];
    assert all[0] in all && all[1] in all && all[2] in all;
  }

  ghost predicate RuleEnforces(n: RuleName, cfg: Config, id: string) {
    match n
    case AuditdActions => AuditEnforced(cfg.distro, id)
    case BannerText => IdOf(id, BANNER_NAMES)
    case CryptoPolicyRule => IdOf(id, FIPS_NAMES) || FipsModeRule(cfg.distro, id)
    case FaillockSafety => DenyRootEnforced(cfg, id)
    case RngdEntropy => RngdEnforced(cfg, id)
    case SkelInitFiles => InitFilesRule(cfg.distro, id)
    case TimeServers => IdOf(id, CHRONY_NAMES) || NtsRuleOf(cfg.distro, id)
    case Usbguard => IdOf(id, USBGUARD_NAMES)
    case _ => false
  }

  lemma EnforcesIs(n: RuleName, cfg: Config, id: string)
    ensures Enforces(n, cfg, id) <==> RuleEnforces(n, cfg, id)
  {
    ListsHave(cfg.distro, id);
    AuditAffectedIs(cfg, id);
    TwoRules("package_rng-tools_installed", "service_rngd_enabled");
    hide AuditAffected, Settings, BannerTailored, UsbguardRules, CryptoTailored, ChronyRules, SsgRule, SsgRules, IdOf, AuditEnforced;
  }

  lemma TwoRules(a: string, b: string)
    ensures SsgRules([a, b]) == [SsgRule(a), SsgRule(b)]
  {
    hide SsgRule;
    assert [a, b][1..] == [b];
    OneRule(b);
  }

  lemma EnforcedIs(cfg: Config, id: string)
    ensures Enforced(cfg, id) <==> exists n :: RuleEnforces(n, cfg, id)
  {
    hide IdOf, AuditEnforced, FipsModeRule, NtsRuleOf, InitFilesRule, DenyRootEnforced, RngdEnforced;
    assert RuleEnforces(BannerText, cfg, id) <==> IdOf(id, BANNER_NAMES);
    assert RuleEnforces(Usbguard, cfg, id) <==> IdOf(id, USBGUARD_NAMES);
    assert RuleEnforces(AuditdActions, cfg, id) <==> AuditEnforced(cfg.distro, id);
    assert RuleEnforces(FaillockSafety, cfg, id) <==> DenyRootEnforced(cfg, id);
    assert RuleEnforces(TimeServers, cfg, id) <==> IdOf(id, CHRONY_NAMES) || NtsRuleOf(cfg.distro, id);
    assert RuleEnforces(CryptoPolicyRule, cfg, id) <==> IdOf(id, FIPS_NAMES) || FipsModeRule(cfg.distro, id);
    assert RuleEnforces(SkelInitFiles, cfg, id) <==> InitFilesRule(cfg.distro, id);
    assert RuleEnforces(RngdEntropy, cfg, id) <==> RngdEnforced(cfg, id);
  }

  // The ids that the tool manages itself: those it enforces and does not expect to
  // fail.
  lemma ManagedExactly(order: seq<RuleName>, cfg: Config, id: string)
    requires IsRunOrder(order)
    ensures id in Managed(order, cfg, ExpectedIds(order, cfg))
       <==> Enforced(cfg, id) && !Waived(cfg, id) && !OperatorWaives(cfg, id)
  {
    ManagedIff(order, cfg, ExpectedIds(order, cfg), id);
    ExpectedIsAnyOrder(order, cfg, id);
    EntriesAre(cfg, id);
    OperatorIs(cfg, id);
    EnforcedIs(cfg, id);
    hide Applies, EntryIds, Enforces, RuleEnforces, Enforced, Waived, OperatorWaives, Managed, ExpectedIds, DeclaredIds;
    forall n
      ensures Enforces(n, cfg, id) <==> RuleEnforces(n, cfg, id)
    {
      EnforcesIs(n, cfg, id);
    }
  }

  // ----- %post blocks

  // Which rules write a %post block, by what host.yaml says.
  predicate WritesPost(n: RuleName, cfg: Config) {
    match n
    case AdminUserAndKeys => true
    case AuditdActions => true
    case BannerText => true
    case ContainerHost => cfg.containers
    case CryptoPolicyRule => true
    case DataDisksPreserve => false in cfg.dataDiskWipes
    case DodRootCa => false
    case FaillockSafety => cfg.faillock.enable
    case KernelModuleBlacklist => cfg.kernelModuleBlacklist
    case PackagePurge => cfg.packagePurge && |cfg.excludedPackages| > 0
    case RngdEntropy => cfg.distro == Alma8 && "rng-tools" !in cfg.excludedPackages
    case SkelInitFiles => true
    case SshConfigApply => true
    case SshKeepOpen => cfg.firewalldPort || cfg.selinuxPort
    case TimeServers => true
    case UnattendedUpdates =>
      cfg.unattended.enable
      && (cfg.unattended.nightlySecurity || cfg.unattended.monthlyFull || cfg.unattended.rebootWindow)
    case Usbguard => false
  }

  lemma PostExactly(order: seq<RuleName>, cfg: Config, n: RuleName)
    requires IsRunOrder(order)
    ensures n in PostBlocks(order, cfg) <==> WritesPost(n, cfg)
  {
    PostMembers(order, cfg, n);
    assert n in order;
  }

  // A rule runs after those that make what it needs: home directories before users
  // and containers; users, the open port and the crypto policy before sshd.
  lemma OrderIs(order: seq<RuleName>)
    requires IsRunOrder(order)
    ensures Precedes(order, SkelInitFiles, AdminUserAndKeys) && Precedes(order, SkelInitFiles, ContainerHost)
    ensures Precedes(order, AdminUserAndKeys, SshConfigApply) && Precedes(order, SshKeepOpen, SshConfigApply)
    ensures Precedes(order, CryptoPolicyRule, SshConfigApply)
  {
    DependencyFirst(order, AdminUserAndKeys, SkelInitFiles);
    DependencyFirst(order, ContainerHost, SkelInitFiles);
    DependencyFirst(order, SshConfigApply, AdminUserAndKeys);
    DependencyFirst(order, SshConfigApply, SshKeepOpen);
    DependencyFirst(order, SshConfigApply, CryptoPolicyRule);
  }

  lemma DependencyFirst(order: seq<RuleName>, n: RuleName, d: RuleName)
    requires IsRunOrder(order) && d in DependsOn(n)
    ensures Precedes(order, d, n)
  {
    hide DependsOn;
    assert n in order;
    var k :| 0 <= k < |order| && order[k] == n;
    assert d in order[..k];
    var j :| 0 <= j < k && order[..k][j] == d;
    assert order[j] == d;
  }

  // ----- packages

  const CONTAINER_PACKAGES := [
    "podman", "crun", "slirp4netns", "fuse-overlayfs", "containers-common", "policycoreutils-python-utils"]

  // What the rules ask for, by what host.yaml says.
  predicate AskedFor(cfg: Config, p: string) {
    || (cfg.containers && (p in CONTAINER_PACKAGES || (cfg.distro != Alma10 && p == "podman-plugins")))
    || (cfg.distro == Alma8 && "rng-tools" !in cfg.excludedPackages && p == "rng-tools")
    || (cfg.unattended.enable
        && (((cfg.unattended.nightlySecurity || cfg.unattended.monthlyFull) && p == "dnf-automatic")
            || (cfg.unattended.rebootWindow && p == "dnf-utils")))
  }

  lemma {:induction false} EmittedBy(order: seq<RuleName>, cfg: Config, p: string)
    ensures p in EmittedPackages(order, cfg) <==> exists n :: n in order && Applies(n, cfg) && p in EmitPackages(n, cfg)
  {
    hide Applies, EmitPackages;
    if order != [] {
      var init, last := order[..|order| - 1], order[|order| - 1];
      assert order == init + [last];
      assert forall n :: n in order <==> n in init || n == last;
      EmittedBy(init, cfg, p);
    }
  }

  lemma RulesAskFor(cfg: Config, p: string)
    ensures (exists n :: Applies(n, cfg) && p in EmitPackages(n, cfg)) <==> AskedFor(cfg, p)
  {
    assert Applies(ContainerHost, cfg) && p in EmitPackages(ContainerHost, cfg)
      <==> cfg.containers && (p in CONTAINER_PACKAGES || (cfg.distro != Alma10 && p == "podman-plugins"));
    assert Applies(RngdEntropy, cfg) && p in EmitPackages(RngdEntropy, cfg)
      <==> cfg.distro == Alma8 && "rng-tools" !in cfg.excludedPackages && p == "rng-tools";
    assert Applies(UnattendedUpdates, cfg) && p in EmitPackages(UnattendedUpdates, cfg)
      <==> cfg.unattended.enable
           && (((cfg.unattended.nightlySecurity || cfg.unattended.monthlyFull) && p == "dnf-automatic")
               || (cfg.unattended.rebootWindow && p == "dnf-utils"));
  }

  // The packages that are added to the host's own.
  lemma PackagesExactly(order: seq<RuleName>, cfg: Config, p: string)
    requires IsRunOrder(order)
    ensures p in NewPackages(cfg.requiredPackages, EmittedPackages(order, cfg))
       <==> p !in cfg.requiredPackages && AskedFor(cfg, p)
  {
    hide Applies, EmitPackages, AskedFor, EmittedPackages, NewPackages;
    PackagesOnce(cfg.requiredPackages, EmittedPackages(order, cfg));
    EmittedBy(order, cfg, p);
    RulesAskFor(cfg, p);
    assert forall n :: n in order;
  }
}
