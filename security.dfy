/** `WiFiScanner.assess_security`: the threat rating of a network from the
    text that names its encryption. The text is lower-cased and tested
    against six rules in a fixed order; the first rule that holds decides. */
module Security {

  import opened PyStr

  datatype ThreatLevel = Critical | High | Medium | Low | Secure | Unknown

  /** The dict returned. Its seven values are fixed by the level, so the
      record holds the level and gives each value as a member. */
  datatype Assessment = Assessment(level: ThreatLevel)
  {
    /** 'threat_level' */
    function ThreatLevelName(): string {
      match level
      case Critical => "CRITICAL"
      case High => "HIGH"
      case Medium => "MEDIUM"
      case Low => "LOW"
      case Secure => "SECURE"
      case Unknown => "UNKNOWN"
    }

    /** 'color' */
    function Color(): string {
      match level
      case Critical => "#f00"
      case High => "#ff6600"
      case Medium => "#ff0"
      case Low => "#0f0"
      case Secure => "#0f0"
      case Unknown => "#888"
    }

    /** 'mitm_risk' */
    function MitmRisk(): string {
      match level
      case Critical => "VERY HIGH"
      case High => "HIGH"
      case Medium => "MODERATE"
      case Low => "LOW"
      case Secure => "VERY LOW"
      case Unknown => "UNKNOWN"
    }

    /** 'vulnerability' */
    function Vulnerability(): string {
      match level
      case Critical => "Unencrypted or weak encryption"
      case High => "WPA (TKIP) - Deprecated protocol"
      case Medium => "WPA2-PSK - Vulnerable to dictionary attacks"
      case Low => "WPA2-Enterprise - Generally secure"
      case Secure => "WPA3 - State-of-the-art security"
      case Unknown => "Unable to determine encryption type"
    }

    /** 'description' */
    function Description(): string {
      match level
      case Critical => "Open networks or WEP encryption provide NO protection against Man-in-the-Middle attacks. All traffic can be intercepted."
      case High => "WPA is vulnerable to KRACK attacks and packet injection. Susceptible to MITM attacks."
      case Medium => "WPA2-Personal is vulnerable to KRACK attacks and weak password exploitation. MITM possible with captured handshakes."
      case Low => "WPA2-Enterprise with 802.1X authentication provides strong security. MITM attacks are difficult but possible with rogue APs."
      case Secure => "WPA3 provides forward secrecy and protection against offline dictionary attacks. MITM attacks are highly resistant."
      case Unknown => "Network encryption type could not be identified. Exercise caution."
    }

    /** 'recommendation' */
    function Recommendation(): string {
      match level
      case Critical => "AVOID this network. Use VPN if absolutely necessary."
      case High => "Upgrade to WPA2/WPA3. Use additional encryption layers."
      case Medium => "Use strong passwords (20+ characters). Consider WPA3 upgrade."
      case Low => "Verify certificate authenticity. Monitor for rogue access points."
      case Secure => "Maintain security. Regular firmware updates recommended."
      case Unknown => "Investigate network security settings before connecting."
    }

    /** 'exploit_risk' */
    function ExploitRisk(): string {
      match level
      case Critical => "99.9%"
      case High => "85.4%"
      case Medium => "45.2%"
      case Low => "12.3%"
      case Secure => "3.7%"
      case Unknown => "N/A"
    }
  }

  /** The level given to an encryption text: the if/elif chain of
      `assess_security`. */
  function ThreatOf(encryption: string): ThreatLevel {
    var e := Lower(encryption);
    if Contains(e, "open") || Contains(e, "none") || Contains(e, "wep") then Critical
    else if Contains(e, "wpa") && !Contains(e, "wpa2") && !Contains(e, "wpa3") then High
    else if Contains(e, "wpa2") && Contains(e, "personal") then Medium
    else if Contains(e, "wpa2") && Contains(e, "enterprise") then Low
    else if Contains(e, "wpa3") then Secure
    else Unknown
  }

  /** The 'threat_level' value names the record: two assessments with the
      same name are the same, and the name is one of the six levels'. */
  lemma ThreatLevelNameIdentifies(a: Assessment, b: Assessment)
    ensures a.ThreatLevelName() == b.ThreatLevelName() ==> a == b
    ensures a.ThreatLevelName() in ["CRITICAL", "HIGH", "MEDIUM", "LOW", "SECURE", "UNKNOWN"]
  {
    assert "CRITICAL"[0] == 'C' && "HIGH"[0] == 'H' && "MEDIUM"[0] == 'M';
    assert "LOW"[0] == 'L' && "SECURE"[0] == 'S' && "UNKNOWN"[0] == 'U';
  }

  /** `assess_security(encryption_type)` */
  function AssessSecurity(encryption: string): Assessment {
    Assessment(ThreatOf(encryption))
  }

  // ---------------------------------------------------------------------
  // The rubric as an ordered list of rules

  /** The rules in the order they are tried. */
  const RULES := [Critical, High, Medium, Low, Secure, Unknown]

  /** The condition of a level's rule taken on its own, on lower-cased text. */
  predicate RuleHolds(level: ThreatLevel, e: string) {
    match level
    case Critical => Contains(e, "open") || Contains(e, "none") || Contains(e, "wep")
    case High => Contains(e, "wpa") && !Contains(e, "wpa2") && !Contains(e, "wpa3")
    case Medium => Contains(e, "wpa2") && Contains(e, "personal")
    case Low => Contains(e, "wpa2") && Contains(e, "enterprise")
    case Secure => Contains(e, "wpa3")
    case Unknown => true
  }

  /** The rubric is total and ordered: the level given is the FIRST rule in
      RULES whose condition holds, and no rule before it holds. */
  lemma FirstRuleDecides(encryption: string, k: nat)
    requires k < |RULES|
    ensures ThreatOf(encryption) == RULES[k] <==>
      RuleHolds(RULES[k], Lower(encryption)) && forall j | 0 <= j < k :: !RuleHolds(RULES[j], Lower(encryption))
  {
    var e := Lower(encryption);
    assert RULES[0] == Critical && RULES[1] == High && RULES[2] == Medium;
    assert RULES[3] == Low && RULES[4] == Secure && RULES[5] == Unknown;
    if k > 0 {
      assert !RuleHolds(RULES[0], e) ==> ThreatOf(encryption) != Critical;
    }
  }

  /** A weak marker decides before anything else: whatever else the text says,
      "open", "none" or "wep" rates it CRITICAL. */
  lemma WeakMarkerIsCritical(encryption: string, marker: string)
    requires marker == "open" || marker == "none" || marker == "wep"
    requires Contains(Lower(encryption), marker)
    ensures AssessSecurity(encryption).ThreatLevelName() == "CRITICAL"
    ensures AssessSecurity(encryption).MitmRisk() == "VERY HIGH"
  {
    assert ThreatOf(encryption) == Critical;
  }

  /** Since "wpa2" and "wpa3" both contain "wpa", a text is UNKNOWN exactly when
      it has no weak marker and no "wpa3", and either never says "wpa" or says
      "wpa2" with neither "personal" nor "enterprise". */
  lemma UnknownExactly(encryption: string)
    ensures var e := Lower(encryption);
      ThreatOf(encryption) == Unknown <==>
        !Contains(e, "open") && !Contains(e, "none") && !Contains(e, "wep") && !Contains(e, "wpa3")
        && (!Contains(e, "wpa") || (Contains(e, "wpa2") && !Contains(e, "personal") && !Contains(e, "enterprise")))
  {
    var e := Lower(encryption);
    assert "wpa" + "2" == "wpa2" && "wpa" + "3" == "wpa3";
    if Contains(e, "wpa2") {
      ContainsPrefixOf(e, "wpa", "2");
    }
    if Contains(e, "wpa3") {
      ContainsPrefixOf(e, "wpa", "3");
    }
  }

  /** The rubric ignores case. */
  lemma IgnoresCase(encryption: string)
    ensures ThreatOf(Upper(encryption)) == ThreatOf(encryption)
    ensures ThreatOf(Lower(encryption)) == ThreatOf(encryption)
  {
    LowerIgnoresCase(encryption);
  }

  // ---------------------------------------------------------------------
  // Examples of the ordering

  /** "WPA2-Personal none" names WPA2 but also "none": CRITICAL. */
  lemma Wpa2PersonalNoneIsCritical(encryption: string)
    requires encryption == "WPA2-Personal none"
    ensures ThreatOf(encryption) == Critical
  {
    var e := Lower(encryption);
    assert e == "wpa2-personal none";
    OccursByChars(e, "none", 14);
  }

  /** "WPA2-Personal/WPA3-Personal" names WPA3 too, but the WPA2-Personal rule
      comes first: MEDIUM. */
  lemma MixedWpa2Wpa3IsMedium(encryption: string)
    requires encryption == "WPA2-Personal/WPA3-Personal"
    ensures ThreatOf(encryption) == Medium
  {
    var e := Lower(encryption);
    assert e == "wpa2-personal/wpa3-personal";
    MixedHasNoWeakMarker(e);
    OccursByChars(e, "wpa2", 0);
    OccursByChars(e, "personal", 5);
  }

  lemma MixedHasNoWeakMarker(e: string)
    requires e == "wpa2-personal/wpa3-personal"
    ensures !Contains(e, "open") && !Contains(e, "none") && !Contains(e, "wep")
  {
    NotContainsPair(e, "open", 0);
    NotContainsPair(e, "none", 0);
    NotContainsPair(e, "wep", 0);
  }

  /** A bare "WPA2", as nmcli lists it, matches neither the Personal nor the
      Enterprise rule and is rated UNKNOWN. */
  lemma BareWpa2IsUnknown(encryption: string)
    requires encryption == "WPA2"
    ensures ThreatOf(encryption) == Unknown
  {
    var e := Lower(encryption);
    assert e == "wpa2";
    OccursByChars(e, "wpa2", 0);
    BareWpa2Lacks(e);
  }

  lemma BareWpa2Lacks(e: string)
    requires e == "wpa2"
    ensures !Contains(e, "open") && !Contains(e, "none") && !Contains(e, "wep")
    ensures !Contains(e, "wpa3") && !Contains(e, "personal") && !Contains(e, "enterprise")
  {
    NotContainsPair(e, "open", 0);
    NotContainsPair(e, "none", 0);
    NotContainsPair(e, "wep", 0);
    NotContainsPair(e, "wpa3", 2);
    assert |e| < |"personal"| && |e| < |"enterprise"|;
  }
}
