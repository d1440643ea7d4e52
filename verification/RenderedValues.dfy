/** The values that a rendered tailoring sets, as the host.yaml asks for them. */
module RenderedValues {
  import opened Prelude
  import opened TailoringXml
  import opened TailoringDrift
  import opened Rules
  import opened RunOrder
  import opened Render

  // ----- the last value of lists of operations

  lemma {:induction false} ValueOfConcat(a: seq<TailoringOp>, b: seq<TailoringOp>, id: string)
    ensures LastValue(a + b, id) == if LastValue(b, id).Some? then LastValue(b, id) else LastValue(a, id)
  {
    if b == [] {
      assert a + b == a;
    } else {
      assert (a + b)[..|a + b| - 1] == a + b[..|b| - 1];
      ValueOfConcat(a, b[..|b| - 1], id);
    }
  }

  predicate SetsNot(ops: seq<TailoringOp>, id: string) {
    forall op :: op in ops ==> op.action != SetValue || op.ruleId != id
  }

  lemma {:induction false} NoValueOf(ops: seq<TailoringOp>, id: string)
    requires SetsNot(ops, id)
    ensures LastValue(ops, id) == None
  {
    if ops != [] {
      assert ops[|ops| - 1] in ops;
      NoValueOf(ops[..|ops| - 1], id);
    }
  }

  lemma {:induction false} DisablesSetNothing(ids: seq<string>, id: string)
    ensures SetsNot(DisableAll(ids), id) && SetsNot(SelectAll(ids), id)
  {
    if ids != [] {
      DisablesSetNothing(ids[1..], id);
    }
  }

  // A value that one rule alone sets is the one it emits, when it applies.
  lemma {:induction false} OwnersValue(order: seq<RuleName>, cfg: Config, owner: RuleName, id: string)
    requires Distinct(order) && forall n :: n != owner ==> SetsNot(EmitTailoring(n, cfg), id)
    ensures LastValue(RuleOps(order, cfg), id)
         == if owner in order && Applies(owner, cfg) then LastValue(EmitTailoring(owner, cfg), id) else None
  {
    hide EmitTailoring, Applies, LastValue, SetsNot;
    if order == [] {
      Nothing(id);
    } else {
      var init, last := order[..|order| - 1], order[|order| - 1];
      assert order == init + [last];
      OwnersValue(init, cfg, owner, id);
      ValueOfConcat(RuleOps(init, cfg), Emitted(last, cfg), id);
      Nothing(id);
      if last != owner {
        NoValueOf(EmitTailoring(last, cfg), id);
      }
    }
  }

  lemma Nothing(id: string)
    ensures LastValue([], id) == None
  {
  }

  lemma RenderedValue(order: seq<RuleName>, cfg: Config, owner: RuleName, id: string)
    requires IsRunOrder(order) && forall n :: n != owner ==> SetsNot(EmitTailoring(n, cfg), id)
    ensures LastValue(TailoringOps(order, cfg), id)
         == if Applies(owner, cfg) then LastValue(EmitTailoring(owner, cfg), id) else None
  {
    hide EmitTailoring, Applies, LastValue, SetsNot;
    OwnersValue(order, cfg, owner, id);
    DisablesSetNothing(Dedup(DeclaredIds(cfg.exceptions)), id);
    NoValueOf(ExceptionOps(cfg.exceptions), id);
    ValueOfConcat(RuleOps(order, cfg), ExceptionOps(cfg.exceptions), id);
    assert owner in order;
  }

  // ----- who sets what

  const UNLOCK_TIME := "var_accounts_passwords_pam_faillock_unlock_time"
  const DENY := "var_accounts_passwords_pam_faillock_deny"
  const CRYPTO_POLICY := "var_system_crypto_policy"

  lemma NameLengths()
    ensures |UNLOCK_TIME| == 47 && |DENY| == 40 && |CRYPTO_POLICY| == 24
    ensures |"var_auditd_" + "disk_full_action"| == 27 && |"var_auditd_" + "disk_error_action"| == 28
    ensures |"var_auditd_" + "max_log_file_action"| == 30
  {
  }

  lemma {:induction false} AuditSets(settings: seq<Setting>, op: TailoringOp)
    requires op in AuditValues(settings)
    ensures exists s :: s in settings && op.ruleId == VALUE_PREFIX + ("var_auditd_" + s.name)
  {
    if settings[0].rule.Some? && !settings[0].FailsCheck() && op == AuditValues(settings)[0] {
      assert settings[0] in settings;
    } else {
      AuditSets(settings[1..], op);
      var s :| s in settings[1..] && op.ruleId == VALUE_PREFIX + ("var_auditd_" + s.name);
      assert s in settings;
    }
  }

  // The length of the name that a rule's set-value operations carry.
  predicate LengthOf(n: RuleName, length: int) {
    match n
    case FaillockSafety => length == 47 || length == 40
    case CryptoPolicyRule => length == 24
    case AuditdActions => length == 27 || length == 28 || length == 30
    case _ => false
  }

  lemma AuditLengths(cfg: Config, op: TailoringOp)
    requires op in AuditValues(Settings(cfg))
    ensures LengthOf(AuditdActions, |op.ruleId| - |VALUE_PREFIX|)
  {
    hide VALUE_PREFIX, AuditValues, SsgRule;
    NameLengths();
    AuditSets(Settings(cfg), op);
    var s :| s in Settings(cfg) && op.ruleId == VALUE_PREFIX + ("var_auditd_" + s.name);
    assert |op.ruleId| == |VALUE_PREFIX| + |"var_auditd_" + s.name|;
  }

  lemma EmittedLengths(n: RuleName, cfg: Config, op: TailoringOp)
    requires op in EmitTailoring(n, cfg) && op.action == SetValue
    ensures LengthOf(n, |op.ruleId| - |VALUE_PREFIX|)
  {
    hide VALUE_PREFIX, AuditValues, AuditDisabled, Settings, Decimal, CryptoTailored, BannerTailored, UsbguardRules, WaivedNts;
    hide DenyRootRule;
    NameLengths();
    match n
    case AuditdActions =>
      NoSetIn(AuditDisabled(Settings(cfg)), op);
      AuditLengths(cfg, op);
    case BannerText => NoSetIn(BannerTailored(), op);
    case CryptoPolicyRule => NoSetIn(CryptoTailored(cfg.distro), op);
    case FaillockSafety => NoSetIn([DenyRootRule()], op);
    case TimeServers => NoSetIn(WaivedNts(cfg), op);
    case Usbguard => NoSetIn(UsbguardRules(), op);
    case _ =>
  }

  lemma NoSetIn(ids: seq<string>, op: TailoringOp)
    ensures op.action == SetValue ==> op !in DisableAll(ids) && op !in SelectAll(ids)
  {
    DisablesSetNothing(ids, op.ruleId);
  }

  // A name of one rule's lengths is set by no other.
  lemma OthersSetNot(owner: RuleName, cfg: Config, name: string)
    requires LengthOf(owner, |name|)
    ensures forall n :: n != owner ==> SetsNot(EmitTailoring(n, cfg), VALUE_PREFIX + name)
  {
    hide EmitTailoring;
    forall n, op | n != owner && op in EmitTailoring(n, cfg) && op.action == SetValue
      ensures op.ruleId != VALUE_PREFIX + name
    {
      EmittedLengths(n, cfg, op);
    }
  }

  // ----- faillock

  // A decimal numeral reads back as its number.
  lemma {:induction false} DecimalReads(n: nat)
    ensures Decimal(n) != "" && NumberIn(Decimal(n), 10) == Some(n)
  {
    var digit := ["0123456789"[n % 10]];
    DigitReads(n % 10);
    assert digit[..0] == "" && NumberIn(digit, 10) == Some(n % 10);
    if n >= 10 {
      DecimalReads(n / 10);
      assert Decimal(n)[..|Decimal(n)| - 1] == Decimal(n / 10);
    }
  }

  lemma DigitReads(d: nat)
    requires d < 10
    ensures DigitValue("0123456789"[d]) == d
  {
  }

  function ValueId(name: string): (r: string)
    ensures r == VALUE_PREFIX + name
  {
    "xccdf_org.ssgproject.content_value_" + name
  }

  // The lock-out's length and the number of attempts are those of the host.yaml,
  // and are set exactly when faillock is enabled.
  lemma FaillockValues(order: seq<RuleName>, cfg: Config)
    requires IsRunOrder(order)
    ensures var unlock := LastValue(TailoringOps(order, cfg), ValueId("var_accounts_passwords_pam_faillock_unlock_time"));
      && (unlock.Some? <==> cfg.faillock.enable)
      && (unlock.Some? ==> unlock.value != "" && NumberIn(unlock.value, 10) == Some(cfg.faillock.unlockTime))
    ensures var deny := LastValue(TailoringOps(order, cfg), ValueId("var_accounts_passwords_pam_faillock_deny"));
      && (deny.Some? <==> cfg.faillock.enable)
      && (deny.Some? ==> deny.value != "" && NumberIn(deny.value, 10) == Some(cfg.faillock.deny))
  {
    FaillockEmits(cfg);
    DecimalReads(cfg.faillock.unlockTime);
    DecimalReads(cfg.faillock.deny);
    NameLengths();
    hide EmitTailoring, Decimal, NumberIn, TailoringOps, LastValue, VALUE_PREFIX;
    OthersSetNot(FaillockSafety, cfg, UNLOCK_TIME);
    OthersSetNot(FaillockSafety, cfg, DENY);
    RenderedValue(order, cfg, FaillockSafety, VALUE_PREFIX + UNLOCK_TIME);
    RenderedValue(order, cfg, FaillockSafety, VALUE_PREFIX + DENY);
  }

  lemma FaillockEmits(cfg: Config)
    ensures LastValue(EmitTailoring(FaillockSafety, cfg), VALUE_PREFIX + UNLOCK_TIME) == Some(Decimal(cfg.faillock.unlockTime))
    ensures LastValue(EmitTailoring(FaillockSafety, cfg), VALUE_PREFIX + DENY) == Some(Decimal(cfg.faillock.deny))
  {
    hide Decimal, VALUE_PREFIX, DenyRootRule;
    NameLengths();
    var unlock, deny := SetValueOp(UNLOCK_TIME, Decimal(cfg.faillock.unlockTime)), SetValueOp(DENY, Decimal(cfg.faillock.deny));
    var tail := if cfg.faillock.evenDenyRoot then [] else DisableAll([DenyRootRule()]);
    assert |unlock.ruleId| != |deny.ruleId|;
    assert [unlock, deny][..1] == [unlock];
    forall id
      ensures LastValue(tail, id) == None
    {
      DisablesSetNothing([DenyRootRule()], id);
      NoValueOf(tail, id);
    }
    ValueOfConcat([unlock, deny], tail, VALUE_PREFIX + UNLOCK_TIME);
    ValueOfConcat([unlock, deny], tail, VALUE_PREFIX + DENY);
  }

  // ----- the crypto policy

  // Left to the profile for the STIG policy, else DEFAULT or FUTURE.
  lemma CryptoValue(order: seq<RuleName>, cfg: Config)
    requires IsRunOrder(order)
    ensures LastValue(TailoringOps(order, cfg), ValueId("var_system_crypto_policy"))
         == match cfg.policy case Stig => None case Modern => Some("DEFAULT") case Future => Some("FUTURE")
  {
    CryptoEmits(cfg);
    NameLengths();
    assert Applies(CryptoPolicyRule, cfg);
    hide EmitTailoring, TailoringOps, LastValue, VALUE_PREFIX;
    OthersSetNot(CryptoPolicyRule, cfg, CRYPTO_POLICY);
    RenderedValue(order, cfg, CryptoPolicyRule, VALUE_PREFIX + CRYPTO_POLICY);
  }

  lemma CryptoEmits(cfg: Config)
    ensures LastValue(EmitTailoring(CryptoPolicyRule, cfg), VALUE_PREFIX + CRYPTO_POLICY)
         == match cfg.policy case Stig => None case Modern => Some("DEFAULT") case Future => Some("FUTURE")
  {
    hide VALUE_PREFIX, CryptoTailored;
    if cfg.policy != Stig {
      var op := SetValueOp(CRYPTO_POLICY, if cfg.policy == Modern then "DEFAULT" else "FUTURE");
      assert [op][..0] == [] && LastValue([op], op.ruleId) == Some(ValueOf(op));
      ValueOfConcat(DisableAll(CryptoTailored(cfg.distro)), [op], op.ruleId);
    }
  }

  // ----- auditd

  lemma PrefixesAre(a: string, b: string)
    requires VALUE_PREFIX + ("var_auditd_" + a) == VALUE_PREFIX + ("var_auditd_" + b)
    ensures a == b
  {
    hide VALUE_PREFIX;
    assert (VALUE_PREFIX + ("var_auditd_" + a))[|VALUE_PREFIX|..] == "var_auditd_" + a;
    assert (VALUE_PREFIX + ("var_auditd_" + b))[|VALUE_PREFIX|..] == "var_auditd_" + b;
    assert ("var_auditd_" + a)[|"var_auditd_"|..] == a && ("var_auditd_" + b)[|"var_auditd_"|..] == b;
  }

  // A governed setting is given its chosen action exactly when its check passes or
  // reads the value itself.
  lemma {:induction false} AuditValueOf(settings: seq<Setting>, s: Setting)
    requires s in settings && DistinctBy(settings, (x: Setting) => x.name)
    ensures LastValue(AuditValues(settings), VALUE_PREFIX + ("var_auditd_" + s.name))
         == if s.rule.Some? && (s.checkReadsValue || s.accepts == None || s.chosen in s.accepts.value)
            then Some(ActionText(s.chosen)) else None
  {
    var first, rest := settings[0], settings[1..];
    var governed := first.rule.Some? && !first.FailsCheck();
    var head := if governed then [SetValueOp("var_auditd_" + first.name, ActionText(first.chosen))] else [];
    var name := (x: Setting) => x.name;
    var id := VALUE_PREFIX + ("var_auditd_" + s.name);
    assert AuditValues(settings) == head + AuditValues(rest);
    assert [first][1..] == [] && AuditValues([first]) == head + [];
    ValueOfConcat(head, AuditValues(rest), id);
    forall i, j | 0 <= i < j < |rest|
      ensures name(rest[i]) != name(rest[j])
    {
      assert name(settings[i + 1]) != name(settings[j + 1]);
    }
    assert forall x :: x in rest ==> exists k :: 0 < k < |settings| && settings[k] == x;
    if s == first {
      assert forall x :: x in rest ==> name(x) != name(s);
      NotSet(rest, s.name);
      NoValueOf(AuditValues(rest), id);
      if head != [] {
        assert head[..0] == [] && LastValue(head, id) == Some(ValueOf(head[0]));
      } else {
        Nothing(id);
      }
    } else {
      AuditValueOf(rest, s);
      assert name(s) != name(first);
      NotSet([first], s.name);
      NoValueOf(head, id);
    }
  }

  lemma NotSet(settings: seq<Setting>, name: string)
    requires forall x :: x in settings ==> x.name != name
    ensures SetsNot(AuditValues(settings), VALUE_PREFIX + ("var_auditd_" + name))
  {
    hide VALUE_PREFIX;
    forall op | op in AuditValues(settings)
      ensures op.ruleId != VALUE_PREFIX + ("var_auditd_" + name)
    {
      AuditSets(settings, op);
      var s :| s in settings && op.ruleId == VALUE_PREFIX + ("var_auditd_" + s.name);
      if s.name != name && op.ruleId == VALUE_PREFIX + ("var_auditd_" + name) {
        PrefixesAre(s.name, name);
      }
    }
  }

  lemma SettingNames(cfg: Config)
    ensures DistinctBy(Settings(cfg), (x: Setting) => x.name)
    ensures |Settings(cfg)| == 3 && Settings(cfg)[0].name == "disk_full_action" && Settings(cfg)[1].name == "disk_error_action"
    ensures Settings(cfg)[2].name == "max_log_file_action"
  {
    hide SsgRule;
    assert |"disk_full_action"| == 16 && |"disk_error_action"| == 17 && |"max_log_file_action"| == 19;
  }

  // The name an action goes by in auditd.conf.
  predicate Named(a: AuditAction, text: string) {
    match a
    case Suspend => text == "SUSPEND"
    case Syslog => text == "SYSLOG"
    case Halt => text == "HALT"
    case Single => text == "SINGLE"
    case Rotate => text == "ROTATE"
    case KeepLogs => text == "keep_logs"
    case Ignore => text == "IGNORE"
  }

  predicate Chosen(value: Option<string>, a: AuditAction) {
    value.Some? && Named(a, value.value)
  }

  lemma AuditValue(order: seq<RuleName>, cfg: Config, k: nat)
    requires IsRunOrder(order) && k < 3
    ensures |Settings(cfg)| == 3
    ensures var s := Settings(cfg)[k];
      LastValue(TailoringOps(order, cfg), VALUE_PREFIX + ("var_auditd_" + s.name))
      == if s.rule.Some? && (s.checkReadsValue || s.accepts == None || s.chosen in s.accepts.value)
         then Some(ActionText(s.chosen)) else None
  {
    SettingNames(cfg);
    NameLengths();
    assert Applies(AuditdActions, cfg);
    hide EmitTailoring, TailoringOps, LastValue, VALUE_PREFIX, Settings, ActionText;
    var s := Settings(cfg)[k];
    var id := VALUE_PREFIX + ("var_auditd_" + s.name);
    OthersSetNot(AuditdActions, cfg, "var_auditd_" + s.name);
    RenderedValue(order, cfg, AuditdActions, id);
    AuditEmits(cfg, id);
    AuditValueOf(Settings(cfg), s);
  }

  lemma AuditEmits(cfg: Config, id: string)
    ensures LastValue(EmitTailoring(AuditdActions, cfg), id) == LastValue(AuditValues(Settings(cfg)), id)
  {
    hide LastValue, AuditValues, AuditDisabled, Settings;
    DisablesSetNothing(AuditDisabled(Settings(cfg)), id);
    NoValueOf(DisableAll(AuditDisabled(Settings(cfg))), id);
    ValueOfConcat(AuditValues(Settings(cfg)), DisableAll(AuditDisabled(Settings(cfg))), id);
  }

  lemma ActionNamed(a: AuditAction)
    ensures Named(a, ActionText(a))
  {
  }

  // What a setting comes to.
  predicate SetTo(value: Option<string>, a: AuditAction, given: bool) {
    if given then Chosen(value, a) else value == None
  }

  lemma DiskFullValue(order: seq<RuleName>, cfg: Config)
    requires IsRunOrder(order)
    ensures SetTo(LastValue(TailoringOps(order, cfg), VALUE_PREFIX + ("var_auditd_" + "disk_full_action")), cfg.auditd.diskFull,
                  cfg.distro == Alma8 || (cfg.distro == Alma9 && cfg.auditd.diskFull in {Syslog, Single, Halt}))
  {
    SettingNames(cfg);
    AuditValue(order, cfg, 0);
    ActionNamed(cfg.auditd.diskFull);
    hide TailoringOps, LastValue, VALUE_PREFIX, SsgRule, ActionText, Named;
  }

  lemma DiskErrorValue(order: seq<RuleName>, cfg: Config)
    requires IsRunOrder(order)
    ensures SetTo(LastValue(TailoringOps(order, cfg), VALUE_PREFIX + ("var_auditd_" + "disk_error_action")), cfg.auditd.diskError,
                  cfg.distro == Alma8 || (cfg.distro == Alma9 && cfg.auditd.diskError in {Syslog, Single, Halt}))
  {
    SettingNames(cfg);
    AuditValue(order, cfg, 1);
    ActionNamed(cfg.auditd.diskError);
    hide TailoringOps, LastValue, VALUE_PREFIX, SsgRule, ActionText, Named;
  }

  lemma LogFileValue(order: seq<RuleName>, cfg: Config)
    requires IsRunOrder(order)
    ensures SetTo(LastValue(TailoringOps(order, cfg), VALUE_PREFIX + ("var_auditd_" + "max_log_file_action")), cfg.auditd.maxLogFile,
                  cfg.distro == Alma9 && cfg.auditd.maxLogFile in {Rotate, Single})
  {
    SettingNames(cfg);
    AuditValue(order, cfg, 2);
    ActionNamed(cfg.auditd.maxLogFile);
    hide TailoringOps, LastValue, VALUE_PREFIX, SsgRule, ActionText, Named;
  }

  // The disk actions are set on alma8, and on alma9 when the STIG's check takes
  // them; the log file action only on alma9, when its check does. Alma10 has no
  // such rules.
  lemma AuditdValues(order: seq<RuleName>, cfg: Config)
    requires IsRunOrder(order)
    ensures var full := LastValue(TailoringOps(order, cfg), ValueId("var_auditd_" + "disk_full_action"));
      if cfg.distro == Alma8 || (cfg.distro == Alma9 && cfg.auditd.diskFull in {Syslog, Single, Halt})
      then Chosen(full, cfg.auditd.diskFull) else full == None
    ensures var error := LastValue(TailoringOps(order, cfg), ValueId("var_auditd_" + "disk_error_action"));
      if cfg.distro == Alma8 || (cfg.distro == Alma9 && cfg.auditd.diskError in {Syslog, Single, Halt})
      then Chosen(error, cfg.auditd.diskError) else error == None
    ensures var log := LastValue(TailoringOps(order, cfg), ValueId("var_auditd_" + "max_log_file_action"));
      if cfg.distro == Alma9 && cfg.auditd.maxLogFile in {Rotate, Single}
      then Chosen(log, cfg.auditd.maxLogFile) else log == None
  {
    hide TailoringOps, LastValue, VALUE_PREFIX, Chosen;
    DiskFullValue(order, cfg);
    DiskErrorValue(order, cfg);
    LogFileValue(order, cfg);
  }
}
