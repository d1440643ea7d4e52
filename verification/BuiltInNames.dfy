/** The rule and value names that the catalogue writes into a tailoring: lower-case
    letters, digits, underscores and dots only. */
module BuiltInNames {
  // Lower-case letters, digits and the punctuation of the built-in names.
  predicate NameText(s: string) {
    forall i :: 0 <= i < |s| ==> 'a' <= s[i] <= 'z' || '0' <= s[i] <= '9' || s[i] == '_' || s[i] == '.'
  }

  // The built-in names, a few to a lemma; long ones from their two halves.
  lemma JoinedName(a: string, b: string)
    requires NameText(a) && NameText(b)
    ensures NameText(a + b)
  {
  }

  lemma ValueNames()
    ensures NameText("var_system_crypto_policy") && NameText("var_auditd_disk_full_action")
  {
  }

  lemma AuditValueNames()
    ensures NameText("var_auditd_disk_error_action") && NameText("var_auditd_max_log_file_action")
  {
  }

  lemma FaillockHalves()
    ensures NameText("var_accounts_passwords_") && NameText("pam_faillock_unlock_time")
  {
  }

  lemma FaillockTimeName()
    ensures NameText("var_accounts_passwords_pam_faillock_unlock_time")
  {
    hide NameText;
    FaillockHalves();
    JoinedName("var_accounts_passwords_", "pam_faillock_unlock_time");
    assert "var_accounts_passwords_" + "pam_faillock_unlock_time" == "var_accounts_passwords_pam_faillock_unlock_time";
  }

  lemma FaillockNames()
    ensures NameText("var_accounts_passwords_pam_faillock_deny")
    ensures NameText("accounts_passwords_pam_faillock_deny_root")
  {
  }

  lemma UsbguardNames()
    ensures NameText("package_usbguard_installed") && NameText("service_usbguard_enabled")
  {
  }

  lemma UsbguardBackendName()
    ensures NameText("configure_usbguard_auditbackend") && NameText("chrony_set_nts")
  {
  }

  lemma BannerNames()
    ensures NameText("dconf_gnome_banner_enabled") && NameText("dconf_gnome_login_banner_text")
  {
  }

  lemma IssueName()
    ensures NameText("banner_etc_issue") && NameText("enable_fips_mode") && NameText("fips_crypto_subpolicy")
  {
  }

  lemma FipsNames()
    ensures NameText("sysctl_crypto_fips_enabled")
    ensures NameText("system_booted_in_fips_mode")
  {
  }

  lemma DracutName()
    ensures NameText("enable_dracut_fips_module")
  {
  }

  lemma CiphersHalf()
    ensures NameText("harden_sshd_ciphers_")
  {
  }

  lemma MacsHalf()
    ensures NameText("harden_sshd_macs_")
  {
  }

  lemma ClientHalf()
    ensures NameText("openssh_conf_crypto_policy")
  {
  }

  lemma ServerHalf()
    ensures NameText("opensshserver_conf_crypto_policy")
  {
  }

  lemma SshdClientCiphersName()
    ensures NameText("harden_sshd_ciphers_openssh_conf_crypto_policy")
  {
    hide NameText;
    CiphersHalf();
    ClientHalf();
    JoinedName("harden_sshd_ciphers_", "openssh_conf_crypto_policy");
    assert "harden_sshd_ciphers_" + "openssh_conf_crypto_policy"
        == "harden_sshd_ciphers_openssh_conf_crypto_policy";
  }

  lemma SshdClientMacsName()
    ensures NameText("harden_sshd_macs_openssh_conf_crypto_policy")
  {
    hide NameText;
    MacsHalf();
    ClientHalf();
    JoinedName("harden_sshd_macs_", "openssh_conf_crypto_policy");
    assert "harden_sshd_macs_" + "openssh_conf_crypto_policy"
        == "harden_sshd_macs_openssh_conf_crypto_policy";
  }

  lemma SshdCiphersName()
    ensures NameText("harden_sshd_ciphers_opensshserver_conf_crypto_policy")
  {
    hide NameText;
    CiphersHalf();
    ServerHalf();
    JoinedName("harden_sshd_ciphers_", "opensshserver_conf_crypto_policy");
    assert "harden_sshd_ciphers_" + "opensshserver_conf_crypto_policy"
        == "harden_sshd_ciphers_opensshserver_conf_crypto_policy";
  }

  lemma SshdMacsName()
    ensures NameText("harden_sshd_macs_opensshserver_conf_crypto_policy")
  {
    hide NameText;
    MacsHalf();
    ServerHalf();
    JoinedName("harden_sshd_macs_", "opensshserver_conf_crypto_policy");
    assert "harden_sshd_macs_" + "opensshserver_conf_crypto_policy" == "harden_sshd_macs_opensshserver_conf_crypto_policy";
  }

  lemma Prefixes()
    ensures NameText("xccdf_org.ssgproject.content_rule_") && NameText("xccdf_org.ssgproject.content_value_")
  {
  }

  lemma RetentionHalves()
    ensures NameText("auditd_data_retention_") && NameText("max_log_file_action_stig")
  {
  }

  lemma RetentionName()
    ensures NameText("auditd_data_retention_max_log_file_action_stig")
  {
    hide NameText;
    RetentionHalves();
    JoinedName("auditd_data_retention_", "max_log_file_action_stig");
    assert "auditd_data_retention_" + "max_log_file_action_stig" == "auditd_data_retention_max_log_file_action_stig";
  }

  lemma AuditRuleNames()
    ensures NameText("auditd_data_disk_full_action") && NameText("auditd_data_disk_error_action")
    ensures NameText("auditd_data_disk_full_action_stig") && NameText("auditd_data_disk_error_action_stig")
  {
  }
}
