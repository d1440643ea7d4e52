/** The tailoring file as the host has it: rendered, written, pulled back and
    parsed, it still deselects exactly the expected failures. */
module Deployed {
  import opened Prelude
  import opened BuiltInNames
  import opened TailoringXml
  import opened TailoringRoundTrip
  import QuotedIds
  import opened TailoringDrift
  import opened Rules
  import opened RunOrder
  import opened Render

  predicate AllFaithful(ops: seq<TailoringOp>) {
    forall op :: op in ops ==> Faithful(op)
  }

  // An id that is printed and read back unchanged.
  predicate PlainId(id: string) {
    id != "" && PlainAttr(id)
  }

  predicate AllPlain(ids: seq<string>) {
    forall id :: id in ids ==> PlainId(id)
  }

  lemma {:induction false} DisableAllFaithful(ids: seq<string>)
    ensures AllFaithful(DisableAll(ids)) <==> AllPlain(ids)
    ensures AllFaithful(SelectAll(ids)) <==> AllPlain(ids)
  {
    hide PlainAttr;
    if ids != [] {
      DisableAllFaithful(ids[1..]);
      assert forall id :: id in ids <==> id == ids[0] || id in ids[1..];
      var disable, select := TailoringOp(ids[0], Disable, None), TailoringOp(ids[0], Select, None);
      assert Faithful(disable) <==> PlainId(ids[0]);
      assert Faithful(select) <==> PlainId(ids[0]);
      assert DisableAll(ids) == [disable] + DisableAll(ids[1..]) && SelectAll(ids) == [select] + SelectAll(ids[1..]);
      assert disable in DisableAll(ids) && select in SelectAll(ids);
      assert forall op :: op in DisableAll(ids) <==> op == disable || op in DisableAll(ids[1..]);
      assert forall op :: op in SelectAll(ids) <==> op == select || op in SelectAll(ids[1..]);
    }
  }

  lemma PlainConcat(a: string, b: string)
    requires PlainAttr(a) && PlainAttr(b)
    ensures PlainAttr(a + b)
  {
    assert forall c :: c in a + b <==> c in a || c in b;
  }

  lemma NameTextPlain(s: string)
    requires NameText(s)
    ensures PlainAttr(s)
  {
  }

  lemma CryptoListNames()
    ensures forall name :: name in FIPS_ONLY_COMMON ==> NameText(name)
  {
    hide NameText;
    IssueName();
    FipsNames();
    SshdClientCiphersName();
    SshdClientMacsName();
    SshdCiphersName();
    SshdMacsName();
  }

  lemma PrefixesPlain()
    ensures PlainId(RULE_PREFIX) && PlainId(VALUE_PREFIX)
  {
    hide PlainAttr, NameText;
    Prefixes();
    NameTextPlain(RULE_PREFIX);
    NameTextPlain(VALUE_PREFIX);
  }

  lemma SsgRulePlain(name: string)
    requires NameText(name)
    ensures PlainId(SsgRule(name))
  {
    hide PlainAttr, RULE_PREFIX, NameText;
    PrefixesPlain();
    NameTextPlain(name);
    PlainConcat(RULE_PREFIX, name);
  }

  lemma {:induction false} SsgRulesPlain(names: seq<string>)
    requires forall name :: name in names ==> NameText(name)
    ensures AllPlain(SsgRules(names))
  {
    hide NameText, PlainId, SsgRule;
    if names != [] {
      assert names[0] in names;
      SsgRulePlain(names[0]);
      SsgRulesPlain(names[1..]);
    }
  }

  lemma {:induction false} DecimalClean(n: nat)
    ensures forall c :: c in Decimal(n) ==> '0' <= c <= '9'
  {
    DigitRange(n % 10);
    if n >= 10 {
      DecimalClean(n / 10);
    }
  }

  lemma DigitRange(d: nat)
    requires d < 10
    ensures '0' <= "0123456789"[d] <= '9'
  {
    assert "0123456789"[d] in "0123456789";
  }

  lemma ValuePlain(name: string)
    requires NameText(name)
    ensures PlainId(VALUE_PREFIX + name)
  {
    hide PlainAttr, VALUE_PREFIX, NameText;
    PrefixesPlain();
    NameTextPlain(name);
    PlainConcat(VALUE_PREFIX, name);
  }

  lemma SetValueFaithful(name: string, value: string)
    requires NameText(name) && Legal(value) && '\r' !in value
    ensures Faithful(SetValueOp(name, value))
  {
    hide PlainAttr, VALUE_PREFIX, NameText;
    ValuePlain(name);
  }

  lemma FaillockFaithful(cfg: Config)
    ensures AllFaithful(EmitTailoring(FaillockSafety, cfg))
  {
    hide Decimal, NameText, SetValueOp, Faithful, SsgRule;
    DecimalClean(cfg.faillock.unlockTime);
    DecimalClean(cfg.faillock.deny);
    FaillockTimeName();
    FaillockNames();
    SetValueFaithful("var_accounts_passwords_pam_faillock_unlock_time", Decimal(cfg.faillock.unlockTime));
    SetValueFaithful("var_accounts_passwords_pam_faillock_deny", Decimal(cfg.faillock.deny));
    SsgRulePlain("accounts_passwords_pam_faillock_deny_root");
    DisableAllFaithful([DenyRootRule()]);
  }

  lemma ActionLegal(a: AuditAction)
    ensures Legal(ActionText(a)) && '\r' !in ActionText(a)
  {
  }

  // A setting whose rule and value both have plain ids.
  predicate SettingPlain(s: Setting) {
    (s.rule.Some? ==> PlainId(s.rule.value)) && NameText("var_auditd_" + s.name)
  }

  lemma {:induction false} AuditFaithful(settings: seq<Setting>)
    requires forall s :: s in settings ==> SettingPlain(s)
    ensures AllFaithful(AuditValues(settings)) && AllPlain(AuditDisabled(settings))
  {
    hide SetValueOp, ActionText, Faithful, NameText, PlainId;
    if settings != [] {
      assert settings[0] in settings;
      AuditFaithful(settings[1..]);
      ActionLegal(settings[0].chosen);
      SetValueFaithful("var_auditd_" + settings[0].name, ActionText(settings[0].chosen));
    }
  }

  lemma SettingNames()
    ensures NameText("var_auditd_" + "disk_full_action") && NameText("var_auditd_" + "disk_error_action")
    ensures NameText("var_auditd_" + "max_log_file_action")
  {
    hide NameText;
    ValueNames();
    AuditValueNames();
    assert "var_auditd_" + "disk_full_action" == "var_auditd_disk_full_action";
    assert "var_auditd_" + "disk_error_action" == "var_auditd_disk_error_action";
    assert "var_auditd_" + "max_log_file_action" == "var_auditd_max_log_file_action";
  }

  lemma SettingsPlain(cfg: Config)
    ensures forall s :: s in Settings(cfg) ==> SettingPlain(s)
  {
    hide NameText, PlainId, SsgRule;
    AuditRuleNames();
    RetentionName();
    SettingNames();
    SsgRulePlain("auditd_data_disk_full_action");
    SsgRulePlain("auditd_data_disk_error_action");
    SsgRulePlain("auditd_data_disk_full_action_stig");
    SsgRulePlain("auditd_data_disk_error_action_stig");
    SsgRulePlain("auditd_data_retention_max_log_file_action_stig");
  }

  lemma CryptoFaithful(cfg: Config)
    ensures AllFaithful(EmitTailoring(CryptoPolicyRule, cfg))
  {
    hide SsgRules, DisableAll, NameText, SetValueOp, Faithful, FIPS_ONLY_COMMON, PlainId;
    CryptoListNames();
    FipsNames();
    DracutName();
    SsgRulesPlain(FIPS_ONLY_COMMON);
    SsgRulesPlain([if cfg.distro == Alma10 then "system_booted_in_fips_mode" else "enable_dracut_fips_module"]);
    DisableAllFaithful(CryptoTailored(cfg.distro));
    ValueNames();
    SetValueFaithful("var_system_crypto_policy", if cfg.policy == Modern then "DEFAULT" else "FUTURE");
  }

  // Every rule's operations survive printing and parsing.
  lemma EmittedFaithful(n: RuleName, cfg: Config)
    ensures AllFaithful(EmitTailoring(n, cfg))
  {
    hide SsgRules, Settings, AuditValues, AuditDisabled, DisableAll, SelectAll, CryptoTailored, Decimal, Faithful, PlainId;
    hide NameText, SsgRule, SettingPlain;
    match n
    case AuditdActions =>
      SettingsPlain(cfg);
      AuditFaithful(Settings(cfg));
      DisableAllFaithful(AuditDisabled(Settings(cfg)));
    case BannerText =>
      BannerNames();
      IssueName();
      SsgRulesPlain(["banner_etc_issue", "dconf_gnome_banner_enabled", "dconf_gnome_login_banner_text"]);
      DisableAllFaithful(BannerTailored());
    case CryptoPolicyRule =>
      CryptoFaithful(cfg);
    case FaillockSafety =>
      FaillockFaithful(cfg);
    case TimeServers =>
      UsbguardBackendName();
      SsgRulePlain("chrony_set_nts");
      DisableAllFaithful(WaivedNts(cfg));
    case Usbguard =>
      UsbguardNames();
      UsbguardBackendName();
      SsgRulesPlain(["package_usbguard_installed", "service_usbguard_enabled", "configure_usbguard_auditbackend"]);
      DisableAllFaithful(UsbguardRules());
    case _ =>
  }

  lemma {:induction false} RenderedFaithful(order: seq<RuleName>, cfg: Config)
    ensures AllFaithful(RuleOps(order, cfg))
  {
    hide Faithful, EmitTailoring;
    if order != [] {
      RenderedFaithful(order[..|order| - 1], cfg);
      EmittedFaithful(order[|order| - 1], cfg);
    }
  }

  // An operator's exception ids are printed as they are. The file on the host
  // parses back to the rendered operations exactly when each of them is non-empty
  // and free of markup, double quotes and control characters, and what the host
  // deselects is then exactly what verify expects to fail.
  lemma DeployedFileDeselectsExpected(
    order: seq<RuleName>, cfg: Config, profile: string, scapContent: string, timestamp: string)
    requires IsRunOrder(order) && PlainMeta(BaseProfileId(profile), scapContent, timestamp)
    ensures var parsed := Parse(TailoringText(TailoringOps(order, cfg), BaseProfileId(profile), scapContent, timestamp));
            && (parsed == Ok(ParsedTailoring("xccdf_org.ssgproject.content_profile_" + profile, TailoringOps(order, cfg)))
                <==> AllPlain(DeclaredIds(cfg.exceptions)))
            && (AllPlain(DeclaredIds(cfg.exceptions)) ==>
                  forall id :: LastSelection(parsed.value.ops, id) == Some(Disable) <==> Expected(cfg, id))
  {
    hide Parse, TailoringText, Faithful, LastSelection, PlainMeta, PlainId, Expected;
    var ops, ids := TailoringOps(order, cfg), Dedup(DeclaredIds(cfg.exceptions));
    RenderedFaithful(order, cfg);
    DisableAllFaithful(ids);
    QuotedIds.RoundTripIff(ops, BaseProfileId(profile), scapContent, timestamp);
    assert AllFaithful(ops) <==> AllFaithful(DisableAll(ids));
    forall id
      ensures LastSelection(ops, id) == Some(Disable) <==> Expected(cfg, id)
    {
      DeselectedAreExpected(order, cfg, id);
    }
  }
}
