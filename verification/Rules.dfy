/** The rule catalogue: for each rule and distro, whether it applies, the
    tailoring it emits, the exception it declares and the ids it enforces. */
module Rules {
  import opened Prelude
  import opened TailoringXml

  datatype Distro = Alma8 | Alma9 | Alma10

  datatype CryptoPolicy = Stig | Modern | Future

  // The auditd actions; SYSLOG belongs to both of the program's enums.
  datatype AuditAction = Suspend | Syslog | Halt | Single | Rotate | KeepLogs | Ignore

  datatype Faillock = Faillock(enable: bool, deny: nat, unlockTime: nat, evenDenyRoot: bool)

  datatype Auditd = Auditd(diskFull: AuditAction, diskError: AuditAction, maxLogFile: AuditAction)

  datatype Unattended = Unattended(enable: bool, nightlySecurity: bool, monthlyFull: bool, rebootWindow: bool)

  datatype ExceptionDecl = ExceptionDecl(id: string, reason: string, stigRulesDisabled: seq<string>)

  // The parts of a validated host.yaml the rules look at.
  datatype Config = Config(
    distro: Distro,
    policy: CryptoPolicy,
    nts: bool,
    faillock: Faillock,
    auditd: Auditd,
    usbguard: bool,
    kernelModuleBlacklist: bool,
    packagePurge: bool,
    excludedPackages: seq<string>,
    dodRootCaInstall: bool,
    containers: bool,
    dataDiskWipes: seq<bool>,
    firewalldPort: bool,
    selinuxPort: bool,
    unattended: Unattended,
    requiredPackages: seq<string>,
    exceptions: seq<ExceptionDecl>)

  datatype RuleName =
    | AdminUserAndKeys | AuditdActions | BannerText | ContainerHost | CryptoPolicyRule | DataDisksPreserve
    | DodRootCa | FaillockSafety | KernelModuleBlacklist | PackagePurge | RngdEntropy | SkelInitFiles
    | SshConfigApply | SshKeepOpen | TimeServers | UnattendedUpdates | Usbguard

  // Every module of a distro's rule package, in module-name order.
  const CATALOGUE: seq<RuleName> := [
    AdminUserAndKeys, AuditdActions, BannerText, ContainerHost, CryptoPolicyRule, DataDisksPreserve,
    DodRootCa, FaillockSafety, KernelModuleBlacklist, PackagePurge, RngdEntropy, SkelInitFiles,
    SshConfigApply, SshKeepOpen, TimeServers, UnattendedUpdates, Usbguard
  ]

  // ----- SSG ids

  const RULE_PREFIX := "xccdf_org.ssgproject.content_rule_"
  const VALUE_PREFIX := "xccdf_org.ssgproject.content_value_"

  function SsgRule(name: string): string {
    RULE_PREFIX + name
  }

  function SsgRules(names: seq<string>): seq<string> {
    if names == [] then [] else [SsgRule(names[0])] + SsgRules(names[1..])
  }

  function DisableAll(ids: seq<string>): seq<TailoringOp> {
    if ids == [] then [] else [TailoringOp(ids[0], Disable, None)] + DisableAll(ids[1..])
  }

  function SelectAll(ids: seq<string>): seq<TailoringOp> {
    if ids == [] then [] else [TailoringOp(ids[0], Select, None)] + SelectAll(ids[1..])
  }

  function SetValueOp(valueName: string, value: string): TailoringOp {
    TailoringOp(VALUE_PREFIX + valueName, SetValue, Some(value))
  }

  function Decimal(n: nat): string {
    if n < 10 then ["0123456789"[n]] else Decimal(n / 10) + ["0123456789"[n % 10]]
  }

  // ----- auditd_actions

  // How one auditd.conf setting is governed; `accepts` None requires nothing.
  datatype Setting = Setting(
    name: string, chosen: AuditAction, rule: Option<string>, accepts: Option<set<AuditAction>>, checkReadsValue: bool)
  {
    predicate Deviates() {
      accepts.Some? && chosen !in accepts.value
    }

    predicate FailsCheck() {
      rule.Some? && !checkReadsValue && Deviates()
    }
  }

  const SYSTEM_ACTIONS := {Syslog, Single, Halt}

  function Settings(cfg: Config): seq<Setting> {
    var a := cfg.auditd;
    match cfg.distro
    case Alma8 => [
      Setting("disk_full_action", a.diskFull, Some(SsgRule("auditd_data_disk_full_action")), Some(SYSTEM_ACTIONS), true),
      Setting("disk_error_action", a.diskError, Some(SsgRule("auditd_data_disk_error_action")), Some(SYSTEM_ACTIONS), true),
      Setting("max_log_file_action", a.maxLogFile, None, Some({Syslog}), false)
    ]
    case Alma9 => [
      Setting("disk_full_action", a.diskFull, Some(SsgRule("auditd_data_disk_full_action_stig")), Some(SYSTEM_ACTIONS), false),
      Setting("disk_error_action", a.diskError, Some(SsgRule("auditd_data_disk_error_action_stig")), Some(SYSTEM_ACTIONS), false),
      Setting("max_log_file_action", a.maxLogFile, Some(SsgRule("auditd_data_retention_max_log_file_action_stig")),
              Some({Rotate, Single}), false)
    ]
    case Alma10 => [
      Setting("disk_full_action", a.diskFull, None, None, false),
      Setting("disk_error_action", a.diskError, None, None, false),
      Setting("max_log_file_action", a.maxLogFile, None, None, false)
    ]
  }

  function ActionText(a: AuditAction): string {
    match a
    case Suspend => "SUSPEND"
    case Syslog => "SYSLOG"
    case Halt => "HALT"
    case Single => "SINGLE"
    case Rotate => "ROTATE"
    case KeepLogs => "keep_logs"
    case Ignore => "IGNORE"
  }

  function AuditDisabled(settings: seq<Setting>): seq<string> {
    if settings == [] then []
    else (if settings[0].FailsCheck() then [settings[0].rule.value] else []) + AuditDisabled(settings[1..])
  }

  function AuditValues(settings: seq<Setting>): seq<TailoringOp> {
    if settings == [] then []
    else (if settings[0].rule.Some? && !settings[0].FailsCheck()
          then [SetValueOp("var_auditd_" + settings[0].name, ActionText(settings[0].chosen))] else [])
         + AuditValues(settings[1..])
  }

  function AuditAffected(settings: seq<Setting>): seq<string> {
    if settings == [] then []
    else (if settings[0].rule.Some? then [settings[0].rule.value] else []) + AuditAffected(settings[1..])
  }

  // ----- id lists

  const FIPS_ONLY_COMMON := [
    "enable_fips_mode", "fips_crypto_subpolicy",
    "harden_sshd_ciphers_openssh_conf_crypto_policy", "harden_sshd_ciphers_opensshserver_conf_crypto_policy",
    "harden_sshd_macs_openssh_conf_crypto_policy", "harden_sshd_macs_opensshserver_conf_crypto_policy",
    "sysctl_crypto_fips_enabled"
  ]

  function CryptoTailored(distro: Distro): seq<string> {
    SsgRules(FIPS_ONLY_COMMON) + SsgRules([if distro == Alma10 then "system_booted_in_fips_mode" else "enable_dracut_fips_module"])
  }

  function BannerTailored(): seq<string> {
    SsgRules(["banner_etc_issue", "dconf_gnome_banner_enabled", "dconf_gnome_login_banner_text"])
  }

  function UsbguardRules(): seq<string> {
    SsgRules(["package_usbguard_installed", "service_usbguard_enabled", "configure_usbguard_auditbackend"])
  }

  function DenyRootRule(): string {
    SsgRule("accounts_passwords_pam_faillock_deny_root")
  }

  function NtsRule(): string {
    SsgRule("chrony_set_nts")
  }

  function ChronyRules(): seq<string> {
    SsgRules(["chronyd_or_ntpd_set_maxpoll", "chronyd_client_only", "chronyd_no_chronyc_network", "chronyd_server_directive"])
  }

  // ----- operator exceptions

  function DeclaredIds(exceptions: seq<ExceptionDecl>): seq<string> {
    if exceptions == [] then []
    else DeclaredIds(exceptions[..|exceptions| - 1]) + exceptions[|exceptions| - 1].stigRulesDisabled
  }

  // The NTS rule this host tailors out: only alma10 selects one, and an
  // operator's own exception for it is not declared twice.
  function WaivedNts(cfg: Config): seq<string> {
    if cfg.distro != Alma10 || cfg.nts || NtsRule() in DeclaredIds(cfg.exceptions) then [] else [NtsRule()]
  }

  // ----- the rules

  predicate Applies(n: RuleName, cfg: Config) {
    match n
    case ContainerHost => cfg.containers
    case DataDisksPreserve => exists w :: w in cfg.dataDiskWipes && !w
    case DodRootCa => !cfg.dodRootCaInstall
    case FaillockSafety => cfg.faillock.enable
    case KernelModuleBlacklist => cfg.kernelModuleBlacklist
    case PackagePurge => cfg.packagePurge && cfg.excludedPackages != []
    case RngdEntropy => cfg.distro == Alma8 && "rng-tools" !in cfg.excludedPackages
    case SshKeepOpen => cfg.firewalldPort || cfg.selinuxPort
    case UnattendedUpdates => cfg.unattended.enable
    case _ => true
  }

  function EmitTailoring(n: RuleName, cfg: Config): seq<TailoringOp> {
    match n
    case AuditdActions =>
      AuditValues(Settings(cfg)) + DisableAll(AuditDisabled(Settings(cfg)))
    case BannerText =>
      DisableAll(BannerTailored())
    case CryptoPolicyRule =>
      if cfg.policy == Stig then []
      else DisableAll(CryptoTailored(cfg.distro))
           + [SetValueOp("var_system_crypto_policy", if cfg.policy == Modern then "DEFAULT" else "FUTURE")]
    case FaillockSafety =>
      [SetValueOp("var_accounts_passwords_pam_faillock_unlock_time", Decimal(cfg.faillock.unlockTime)),
       SetValueOp("var_accounts_passwords_pam_faillock_deny", Decimal(cfg.faillock.deny))]
      + (if cfg.faillock.evenDenyRoot then [] else DisableAll([DenyRootRule()]))
    case TimeServers =>
      DisableAll(WaivedNts(cfg))
    case Usbguard =>
      if cfg.usbguard then SelectAll(UsbguardRules()) else DisableAll(UsbguardRules())
    case _ => []
  }

  // The ids the rule's exception entry names; None is no entry.
  function ExceptionEntry(n: RuleName, cfg: Config): Option<seq<string>> {
    match n
    case AuditdActions =>
      if exists s :: s in Settings(cfg) && s.Deviates() then Some(AuditDisabled(Settings(cfg))) else None
    case BannerText => Some(BannerTailored())
    case CryptoPolicyRule => if cfg.policy == Stig then None else Some(CryptoTailored(cfg.distro))
    case DodRootCa => Some([])
    case FaillockSafety =>
      if cfg.faillock.evenDenyRoot && cfg.faillock.unlockTime == 0 then None
      else Some(if cfg.faillock.evenDenyRoot then [] else [DenyRootRule()])
    case TimeServers => if WaivedNts(cfg) == [] then None else Some(WaivedNts(cfg))
    case Usbguard => if cfg.usbguard then None else Some(UsbguardRules())
    case _ => None
  }

  // The ids a rule enforces (`stig_rules_affected`).
  function Affected(n: RuleName, cfg: Config): seq<string> {
    match n
    case AuditdActions => AuditAffected(Settings(cfg))
    case BannerText => BannerTailored()
    case CryptoPolicyRule => CryptoTailored(cfg.distro)
    case FaillockSafety => [DenyRootRule()]
    case RngdEntropy =>
      if cfg.distro == Alma8 then SsgRules(["package_rng-tools_installed", "service_rngd_enabled"]) else []
    case SkelInitFiles =>
      [SsgRule(if cfg.distro == Alma10 then "file_permission_user_init_files" else "file_permission_user_init_files_root")]
    case TimeServers => ChronyRules() + (if cfg.distro == Alma10 then [NtsRule()] else [])
    case Usbguard => UsbguardRules()
    case _ => []
  }

  // Whether the rule's %post body is non-empty once trailing space is stripped.
  predicate EmitsPost(n: RuleName, cfg: Config) {
    match n
    case DodRootCa => false
    case RngdEntropy => cfg.distro == Alma8
    case UnattendedUpdates =>
      cfg.unattended.nightlySecurity || cfg.unattended.monthlyFull || cfg.unattended.rebootWindow
    case Usbguard => false
    case _ => true
  }

  function EmitPackages(n: RuleName, cfg: Config): seq<string> {
    match n
    case ContainerHost =>
      ["podman", "crun", "slirp4netns", "fuse-overlayfs", "containers-common"]
      + (if cfg.distro == Alma10 then [] else ["podman-plugins"])
      + ["policycoreutils-python-utils"]
    case RngdEntropy => if cfg.distro == Alma8 then ["rng-tools"] else []
    case UnattendedUpdates =>
      (if cfg.unattended.nightlySecurity || cfg.unattended.monthlyFull then ["dnf-automatic"] else [])
      + (if cfg.unattended.rebootWindow then ["dnf-utils"] else [])
    case _ => []
  }

  // ----- dependencies

  function DependsOn(n: RuleName): seq<RuleName> {
    match n
    case AdminUserAndKeys => [SkelInitFiles]
    case ContainerHost => [SkelInitFiles]
    case SshConfigApply => [AdminUserAndKeys, SshKeepOpen, CryptoPolicyRule]
    case _ => []
  }

  function IdText(n: RuleName): string {
    match n
    case AdminUserAndKeys => "admin_user_and_keys"
    case AuditdActions => "auditd_actions"
    case BannerText => "banner_text"
    case ContainerHost => "container_host"
    case CryptoPolicyRule => "crypto_policy"
    case DataDisksPreserve => "data_disks_preserve"
    case DodRootCa => "dod_root_ca"
    case FaillockSafety => "faillock_safety"
    case KernelModuleBlacklist => "kernel_module_blacklist"
    case PackagePurge => "package_purge"
    case RngdEntropy => "rngd_entropy"
    case SkelInitFiles => "skel_init_files"
    case SshConfigApply => "ssh_config_apply"
    case SshKeepOpen => "ssh_keep_open"
    case TimeServers => "time_servers"
    case UnattendedUpdates => "unattended_updates"
    case Usbguard => "usbguard"
  }

  // ----- what every rule promises

  function EntryIds(n: RuleName, cfg: Config): seq<string> {
    match ExceptionEntry(n, cfg) case None => [] case Some(ids) => ids
  }

  function WithAction(ops: seq<TailoringOp>, action: Action): (ids: set<string>)
    ensures forall id :: id in ids <==> exists op :: op in ops && op.action == action && op.ruleId == id
  {
    set op | op in ops && op.action == action :: op.ruleId
  }

  lemma {:induction false} DisableAllIds(ids: seq<string>)
    ensures WithAction(DisableAll(ids), Disable) == ToSet(ids) && WithAction(DisableAll(ids), Select) == {}
  {
    if ids != [] {
      DisableAllIds(ids[1..]);
      WithActionConcat([TailoringOp(ids[0], Disable, None)], DisableAll(ids[1..]));
      assert ids == [ids[0]] + ids[1..];
    }
  }

  lemma {:induction false} SelectAllIds(ids: seq<string>)
    ensures WithAction(SelectAll(ids), Select) == ToSet(ids) && WithAction(SelectAll(ids), Disable) == {}
  {
    if ids != [] {
      SelectAllIds(ids[1..]);
      WithActionConcat([TailoringOp(ids[0], Select, None)], SelectAll(ids[1..]));
      assert ids == [ids[0]] + ids[1..];
    }
  }

  lemma WithActionConcat(a: seq<TailoringOp>, b: seq<TailoringOp>)
    ensures forall action :: WithAction(a + b, action) == WithAction(a, action) + WithAction(b, action)
  {
    assert forall op :: op in a + b <==> op in a || op in b;
  }

  // No single operation of these lists selects or deselects anything.
  lemma ValuesOnly(ops: seq<TailoringOp>)
    requires forall op :: op in ops ==> op.action == SetValue
    ensures WithAction(ops, Disable) == {} && WithAction(ops, Select) == {}
  {
  }

  lemma MixedIds(values: seq<TailoringOp>, ids: seq<string>)
    requires forall op :: op in values ==> op.action == SetValue
    ensures WithAction(values + DisableAll(ids), Disable) == ToSet(ids) && WithAction(values + DisableAll(ids), Select) == {}
    ensures WithAction(DisableAll(ids) + values, Disable) == ToSet(ids) && WithAction(DisableAll(ids) + values, Select) == {}
  {
    ValuesOnly(values);
    DisableAllIds(ids);
    WithActionConcat(values, DisableAll(ids));
    WithActionConcat(DisableAll(ids), values);
  }

  lemma {:induction false} AuditValuesOnly(settings: seq<Setting>)
    ensures forall op :: op in AuditValues(settings) ==> op.action == SetValue
    ensures (forall s :: s in settings ==> !s.Deviates()) ==> AuditDisabled(settings) == []
  {
    if settings != [] {
      AuditValuesOnly(settings[1..]);
      assert settings == [settings[0]] + settings[1..];
    }
  }

  // The exception entry names exactly what the rule deselects, and only
  // usbguard, when enabled, selects anything.
  lemma RuleContract(n: RuleName, cfg: Config)
    ensures WithAction(EmitTailoring(n, cfg), Disable) == ToSet(EntryIds(n, cfg))
    ensures WithAction(EmitTailoring(n, cfg), Select)
         == if n == Usbguard && cfg.usbguard then ToSet(UsbguardRules()) else {}
  {
    hide WithAction, DisableAll, SelectAll, Settings, AuditValues, AuditDisabled, CryptoTailored, BannerTailored;
    hide UsbguardRules, DenyRootRule, WaivedNts, SetValueOp;
    match n
    case AuditdActions =>
      AuditValuesOnly(Settings(cfg));
      MixedIds(AuditValues(Settings(cfg)), AuditDisabled(Settings(cfg)));
    case BannerText =>
      DisableAllIds(BannerTailored());
    case CryptoPolicyRule =>
      ValuesOnly([]);
      CryptoContract(cfg);
    case FaillockSafety =>
      FaillockContract(cfg);
    case TimeServers =>
      DisableAllIds(WaivedNts(cfg));
    case Usbguard =>
      DisableAllIds(UsbguardRules());
      SelectAllIds(UsbguardRules());
    case _ =>
      ValuesOnly([]);
  }

  lemma CryptoContract(cfg: Config)
    ensures WithAction(EmitTailoring(CryptoPolicyRule, cfg), Disable) == ToSet(EntryIds(CryptoPolicyRule, cfg))
    ensures WithAction(EmitTailoring(CryptoPolicyRule, cfg), Select) == {}
  {
    hide CryptoTailored, DisableAll;
    MixedIds([SetValueOp("var_system_crypto_policy", if cfg.policy == Modern then "DEFAULT" else "FUTURE")],
             CryptoTailored(cfg.distro));
  }

  lemma FaillockContract(cfg: Config)
    ensures WithAction(EmitTailoring(FaillockSafety, cfg), Disable) == ToSet(EntryIds(FaillockSafety, cfg))
    ensures WithAction(EmitTailoring(FaillockSafety, cfg), Select) == {}
  {
    hide Decimal, DenyRootRule, WithAction;
    var values := [SetValueOp("var_accounts_passwords_pam_faillock_unlock_time", Decimal(cfg.faillock.unlockTime)),
                   SetValueOp("var_accounts_passwords_pam_faillock_deny", Decimal(cfg.faillock.deny))];
    MixedIds(values, [DenyRootRule()]);
    ValuesOnly(values);
    assert values + [] == values;
  }

  // ----- usbguard's ids belong to it alone

  predicate NameMark(name: string) {
    |name| >= 12 && ((name[8] == 'u' && name[9] == 's') || (name[10] == 'u' && name[11] == 's'))
  }

  predicate UsbMark(id: string) {
    |id| >= |RULE_PREFIX| && NameMark(id[|RULE_PREFIX|..])
  }

  lemma {:induction false} MarkAll(names: seq<string>, mark: bool)
    requires forall name :: name in names ==> NameMark(name) == mark
    ensures forall id :: id in SsgRules(names) ==> UsbMark(id) == mark
  {
    if names != [] {
      assert SsgRule(names[0])[|RULE_PREFIX|..] == names[0];
      assert forall name :: name in names[1..] ==> name in names;
      MarkAll(names[1..], mark);
    }
  }

  lemma MarkOne(name: string)
    ensures UsbMark(SsgRule(name)) == NameMark(name)
  {
    assert SsgRule(name)[|RULE_PREFIX|..] == name;
  }

  lemma UsbguardMarked()
    ensures forall id :: id in UsbguardRules() ==> UsbMark(id)
  {
    assert NameMark("package_usbguard_installed") && NameMark("service_usbguard_enabled");
    assert NameMark("configure_usbguard_auditbackend");
    MarkAll(["package_usbguard_installed", "service_usbguard_enabled", "configure_usbguard_auditbackend"], true);
  }

  lemma BannerUnmarked()
    ensures forall id :: id in BannerTailored() ==> !UsbMark(id)
  {
    assert !NameMark("banner_etc_issue") && !NameMark("dconf_gnome_banner_enabled");
    assert !NameMark("dconf_gnome_login_banner_text");
    MarkAll(["banner_etc_issue", "dconf_gnome_banner_enabled", "dconf_gnome_login_banner_text"], false);
  }

  lemma FipsUnmarked()
    ensures forall name :: name in FIPS_ONLY_COMMON ==> !NameMark(name)
  {
    assert !NameMark("enable_fips_mode") && !NameMark("fips_crypto_subpolicy");
    assert !NameMark("harden_sshd_ciphers_openssh_conf_crypto_policy");
    assert !NameMark("harden_sshd_ciphers_opensshserver_conf_crypto_policy");
    assert !NameMark("harden_sshd_macs_openssh_conf_crypto_policy");
    assert !NameMark("harden_sshd_macs_opensshserver_conf_crypto_policy");
    assert !NameMark("sysctl_crypto_fips_enabled");
  }

  lemma CryptoUnmarked(distro: Distro)
    ensures forall id :: id in CryptoTailored(distro) ==> !UsbMark(id)
  {
    hide NameMark, SsgRules;
    FipsUnmarked();
    MarkAll(FIPS_ONLY_COMMON, false);
    FipsModeUnmarked();
    MarkAll([if distro == Alma10 then "system_booted_in_fips_mode" else "enable_dracut_fips_module"], false);
  }

  lemma FipsModeUnmarked()
    ensures !NameMark("system_booted_in_fips_mode") && !NameMark("enable_dracut_fips_module")
  {
  }

  lemma AuditNamesUnmarked()
    ensures !NameMark("auditd_data_disk_full_action") && !NameMark("auditd_data_disk_error_action")
    ensures !NameMark("auditd_data_disk_full_action_stig") && !NameMark("auditd_data_disk_error_action_stig")
    ensures !NameMark("auditd_data_retention_max_log_file_action_stig")
  {
  }

  lemma SettingsUnmarked(cfg: Config, s: Setting)
    requires s in Settings(cfg) && s.rule.Some?
    ensures !UsbMark(s.rule.value)
  {
    hide NameMark, UsbMark, SsgRule;
    AuditNamesUnmarked();
    MarkOne("auditd_data_disk_full_action");
    MarkOne("auditd_data_disk_error_action");
    MarkOne("auditd_data_disk_full_action_stig");
    MarkOne("auditd_data_disk_error_action_stig");
    MarkOne("auditd_data_retention_max_log_file_action_stig");
  }

  lemma {:induction false} AuditDisabledFrom(settings: seq<Setting>, id: string)
    requires id in AuditDisabled(settings)
    ensures exists s :: s in settings && s.rule == Some(id)
  {
    if settings[0].rule == Some(id) {
      assert settings[0] in settings;
    } else {
      AuditDisabledFrom(settings[1..], id);
      var s :| s in settings[1..] && s.rule == Some(id);
      assert s in settings;
    }
  }

  lemma SinglesUnmarked()
    ensures !UsbMark(DenyRootRule()) && !UsbMark(NtsRule())
  {
    MarkOne("accounts_passwords_pam_faillock_deny_root");
    MarkOne("chrony_set_nts");
    assert !NameMark("accounts_passwords_pam_faillock_deny_root") && !NameMark("chrony_set_nts");
  }

  // No other rule ever deselects an id usbguard selects.
  lemma UsbguardAlone(n: RuleName, cfg: Config, id: string)
    requires n != Usbguard && id in EntryIds(n, cfg)
    ensures id !in UsbguardRules()
  {
    hide UsbMark, SsgRules, UsbguardRules, BannerTailored, CryptoTailored, DenyRootRule, NtsRule, Settings;
    UsbguardMarked();
    match n
    case AuditdActions =>
      AuditDisabledFrom(Settings(cfg), id);
      var s :| s in Settings(cfg) && s.rule == Some(id);
      SettingsUnmarked(cfg, s);
    case BannerText => BannerUnmarked();
    case CryptoPolicyRule => CryptoUnmarked(cfg.distro);
    case FaillockSafety => SinglesUnmarked();
    case TimeServers => SinglesUnmarked();
    case _ =>
  }
}
