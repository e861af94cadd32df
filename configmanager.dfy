// ConfigurationManager (the process-wide current profile and which preset it
// came from), FunctionObfuscationConfig (optional per-function overrides) and
// FunctionConfigRegistry (overrides by function name).
module ConfigManager {
  import opened W = Word
  import opened Options
  import opened StdText
  import opened Config

  datatype ProfileType = Minimal | Balanced | Maximum | Custom

  /** The preset a profile type stands for; CUSTOM has none. */
  function Preset(t: ProfileType): (r: Option<Profile>)
    ensures r.None? <==> t == Custom
    ensures r.Some? ==> Validate(r.value)
  {
    PresetsValid();
    match t
    case Minimal => Some(MinimalProtection)
    case Balanced => Some(BalancedProtection)
    case Maximum => Some(MaximumProtection)
    case Custom => None
  }

  /** The three presets are different profiles, so a preset type names exactly one profile. */
  lemma PresetsDistinct(s: ProfileType, t: ProfileType)
    requires Preset(s).Some? && Preset(t).Some? && Preset(s) == Preset(t)
    ensures s == t
  {
  }

  /** What load_from_string did: loaded, or which exception it threw. */
  datatype LoadOutcome = Loaded | ParseError(error: StoiError) | Rejected

  class ConfigurationManager {
    var currentProfile: Profile
    var currentType: ProfileType

    /** A preset type always goes with that preset's profile. */
    ghost predicate Consistent()
      reads this
    {
      Preset(currentType).Some? ==> currentProfile == Preset(currentType).value
    }

    /** The private constructor: BALANCED_PROTECTION. */
    constructor()
      ensures currentProfile == BalancedProtection && currentType == Balanced
      ensures Consistent()
    {
      currentProfile := BalancedProtection;
      currentType := Balanced;
    }

    /** select_profile: a preset replaces the profile; CUSTOM only relabels it. */
    method SelectProfile(t: ProfileType)
      modifies this
      ensures currentType == t
      ensures currentProfile == if t == Custom then old(currentProfile) else Preset(t).value
      ensures Consistent()
    {
      match t {
        case Minimal =>
          currentProfile := MinimalProtection;
          currentType := Minimal;
        case Balanced =>
          currentProfile := BalancedProtection;
          currentType := Balanced;
        case Maximum =>
          currentProfile := MaximumProtection;
          currentType := Maximum;
        case Custom =>
          currentType := Custom;
      }
    }

    /**
     * get_mutable_profile: the caller may now change the profile, so the type
     * becomes CUSTOM; the profile handed out is the current one.
     */
    method GetMutableProfile() returns (p: Profile)
      modifies this
      ensures p == currentProfile == old(currentProfile)
      ensures currentType == Custom
      ensures Consistent()
    {
      currentType := Custom;
      p := currentProfile;
    }

    /**
     * set_profile: an invalid profile raises invalid_argument and changes
     * nothing (ok is false); a valid one becomes the CUSTOM profile.
     */
    method SetProfile(profile: Profile) returns (ok: bool)
      modifies this
      ensures ok == Validate(profile)
      ensures ok ==> currentProfile == profile && currentType == Custom
      ensures !ok ==> currentProfile == old(currentProfile) && currentType == old(currentType)
      ensures old(Consistent()) ==> Consistent()
    {
      if !Validate(profile) {
        return false;
      }
      currentProfile := profile;
      currentType := Custom;
      ok := true;
    }

    /** The setters store the value without validation and mark the profile CUSTOM. */
    method SetBoolField(k: BoolKey, enabled: bool)
      modifies this
      ensures currentProfile == SetBool(old(currentProfile), k, enabled) && currentType == Custom
      ensures Validate(currentProfile) == Validate(old(currentProfile))
      ensures Consistent()
    {
      ValidateIgnoresBools(currentProfile, k, enabled);
      currentProfile := SetBool(currentProfile, k, enabled);
      currentType := Custom;
    }

    method SetControlFlowFlattening(enabled: bool)
      modifies this
      ensures currentProfile == SetBool(old(currentProfile), EnableControlFlowFlattening, enabled)
      ensures currentType == Custom && Consistent()
    {
      SetBoolField(EnableControlFlowFlattening, enabled);
    }

    /** The only int setter: it can leave the profile invalid (see SetterCanInvalidate). */
    method SetBogusFlowComplexity(complexity: Int32)
      modifies this
      ensures currentProfile == SetInt(old(currentProfile), BogusFlowComplexity, complexity)
      ensures currentType == Custom && Consistent()
    {
      currentProfile := SetInt(currentProfile, BogusFlowComplexity, complexity);
      currentType := Custom;
    }

    method SetStringEncryption(enabled: bool)
      modifies this
      ensures currentProfile == SetBool(old(currentProfile), EnableStringEncryption, enabled)
      ensures currentType == Custom && Consistent()
    {
      SetBoolField(EnableStringEncryption, enabled);
    }

    method SetVmExecution(enabled: bool)
      modifies this
      ensures currentProfile == SetBool(old(currentProfile), EnableVmExecution, enabled)
      ensures currentType == Custom && Consistent()
    {
      SetBoolField(EnableVmExecution, enabled);
    }

    method SetAntiDebug(enabled: bool)
      modifies this
      ensures currentProfile == SetBool(old(currentProfile), EnableAntiDebug, enabled)
      ensures currentType == Custom && Consistent()
    {
      SetBoolField(EnableAntiDebug, enabled);
    }

    method SetJunkCode(enabled: bool)
      modifies this
      ensures currentProfile == SetBool(old(currentProfile), EnableJunkCode, enabled)
      ensures currentType == Custom && Consistent()
    {
      SetBoolField(EnableJunkCode, enabled);
    }

    method SetMba(enabled: bool)
      modifies this
      ensures currentProfile == SetBool(old(currentProfile), EnableMba, enabled)
      ensures currentType == Custom && Consistent()
    {
      SetBoolField(EnableMba, enabled);
    }

    /** validate_current: every int field of the current profile is in range. */
    function ValidateCurrent(): (r: bool)
      reads this
      ensures r <==> forall k :: InBounds(currentProfile, k)
    {
      ValidateBounds(currentProfile);
      Validate(currentProfile)
    }

    /** serialize_current: text that deserialize reads back as the current profile. */
    function SerializeCurrent(): (s: string)
      reads this
      ensures Deserialize(s) == Ok(currentProfile)
    {
      RoundTrip(currentProfile);
      Serialize(currentProfile)
    }

    /**
     * load_from_string: a stoi exception escapes, an invalid profile raises
     * invalid_argument; in both cases nothing changes. Otherwise the parsed
     * profile becomes the CUSTOM profile.
     */
    method LoadFromString(data: string) returns (outcome: LoadOutcome)
      modifies this
      ensures match Deserialize(data)
        case Err(e) => outcome == ParseError(e)
        case Ok(p) => outcome == (if Validate(p) then Loaded else Rejected)
      ensures outcome == Loaded ==> Deserialize(data) == Ok(currentProfile) && currentType == Custom
      ensures outcome != Loaded ==> currentProfile == old(currentProfile) && currentType == old(currentType)
      ensures old(Consistent()) ==> Consistent()
    {
      var parsed := DeserializeText(data);
      if parsed.Err? {
        return ParseError(parsed.error);
      }
      var profile := parsed.value;
      if !Validate(profile) {
        return Rejected;
      }
      currentProfile := profile;
      currentType := Custom;
      outcome := Loaded;
    }
  }

  /** Setting bogus_flow_complexity past 20 through the setter leaves an invalid profile behind. */
  lemma SetterCanInvalidate(p: Profile)
    ensures !Validate(SetInt(p, BogusFlowComplexity, 21))
  {
  }

  /** A manager's serialized profile loads into another manager exactly when it is valid. */
  lemma TransferProfile(p: Profile)
    ensures Deserialize(Serialize(p)) == Ok(p)
    ensures Validate(p) <==> forall k :: InBounds(p, k)
  {
    RoundTrip(p);
    ValidateBounds(p);
  }

  // ---------------------------------------------------------------------
  // Per-function overrides
  // ---------------------------------------------------------------------

  /** FunctionObfuscationConfig: each field, when present, overrides the global profile. */
  datatype FunctionConfig = FunctionConfig(
    enableControlFlowFlattening: Option<bool>,
    enableStringEncryption: Option<bool>,
    enableVmExecution: Option<bool>,
    enableAntiDebug: Option<bool>,
    enableJunkCode: Option<bool>,
    enableMba: Option<bool>,
    complexityOverride: Option<Int32>)

  const NoOverrides := FunctionConfig(None, None, None, None, None, None, None)

  /** The override a config holds for a bool field, if any. */
  function BoolOverride(c: FunctionConfig, b: BoolKey): Option<bool>
  {
    match b
    case EnableControlFlowFlattening => c.enableControlFlowFlattening
    case EnableStringEncryption => c.enableStringEncryption
    case EnableVmExecution => c.enableVmExecution
    case EnableAntiDebug => c.enableAntiDebug
    case EnableJunkCode => c.enableJunkCode
    case EnableMba => c.enableMba
    case _ => None
  }

  /** The override a config holds for an int field: complexity drives both complexities. */
  function IntOverride(c: FunctionConfig, i: IntKey): Option<Int32>
  {
    if i == BogusFlowComplexity || i == MbaComplexity then c.complexityOverride else None
  }

  function OrElse<T>(o: Option<T>, d: T): T
  {
    match o
    case Some(v) => v
    case None => d
  }

  /**
   * merge_with_global: every field the config holds replaces the global
   * one; every other field is the global one. The source's if statements
   * touch distinct fields (complexity both complexities), so their order
   * does not matter and the result is built field by field.
   */
  function MergeWithGlobal(c: FunctionConfig, g: Profile): Profile
  {
    Profile(
      OrElse(c.enableControlFlowFlattening, g.enableControlFlowFlattening),
      OrElse(c.complexityOverride, g.bogusFlowComplexity),
      g.opaquePredicateCount,
      OrElse(c.enableStringEncryption, g.enableStringEncryption),
      g.distributeAcrossSections,
      g.encryptionRounds,
      OrElse(c.enableVmExecution, g.enableVmExecution),
      g.vmHandlerCount,
      g.mutateVmHandlers,
      g.vmMutationFrequency,
      OrElse(c.enableAntiDebug, g.enableAntiDebug),
      g.enableTimingChecks,
      g.enableExceptionChecks,
      g.enableHardwareBreakpointChecks,
      OrElse(c.enableJunkCode, g.enableJunkCode),
      g.junkCodeDensity,
      g.useRealisticJunk,
      OrElse(c.enableMba, g.enableMba),
      OrElse(c.complexityOverride, g.mbaComplexity),
      g.mbaChainDepth,
      g.enablePerformanceMonitoring)
  }

  /** A bool field of the merge is the config's override if it holds one, else the global field. */
  lemma MergeBool(c: FunctionConfig, g: Profile, b: BoolKey)
    ensures GetBool(MergeWithGlobal(c, g), b) == OrElse(BoolOverride(c, b), GetBool(g, b))
  {
    match b
    case EnableControlFlowFlattening =>
    case EnableStringEncryption =>
    case DistributeAcrossSections =>
    case EnableVmExecution =>
    case MutateVmHandlers =>
    case EnableAntiDebug =>
    case EnableTimingChecks =>
    case EnableExceptionChecks =>
    case EnableHardwareBreakpointChecks =>
    case EnableJunkCode =>
    case UseRealisticJunk =>
    case EnableMba =>
    case EnablePerformanceMonitoring =>
  }

  /** An int field of the merge: the complexity override sets both complexities, nothing else changes. */
  lemma MergeInt(c: FunctionConfig, g: Profile, i: IntKey)
    ensures GetInt(MergeWithGlobal(c, g), i) == OrElse<Int32>(IntOverride(c, i), GetInt(g, i))
  {
    match i
    case BogusFlowComplexity =>
    case OpaquePredicateCount =>
    case EncryptionRounds =>
    case VmHandlerCount =>
    case VmMutationFrequency =>
    case JunkCodeDensity =>
    case MbaComplexity =>
    case MbaChainDepth =>
  }

  /** Every field of the merge, as MergeBool and MergeInt state it one at a time. */
  lemma MergeFields(c: FunctionConfig, g: Profile)
    ensures forall b :: GetBool(MergeWithGlobal(c, g), b) == OrElse(BoolOverride(c, b), GetBool(g, b))
    ensures forall i :: GetInt(MergeWithGlobal(c, g), i) == OrElse<Int32>(IntOverride(c, i), GetInt(g, i))
  {
    forall b ensures GetBool(MergeWithGlobal(c, g), b) == OrElse(BoolOverride(c, b), GetBool(g, b)) {
      MergeBool(c, g, b);
    }
    forall i ensures GetInt(MergeWithGlobal(c, g), i) == OrElse<Int32>(IntOverride(c, i), GetInt(g, i)) {
      MergeInt(c, g, i);
    }
  }

  /** A config with no overrides yields the global profile itself. */
  lemma MergeEmpty(g: Profile)
    ensures MergeWithGlobal(NoOverrides, g) == g
  {
    var c := NoOverrides;
    assert c.enableControlFlowFlattening == None && c.complexityOverride == None;
  }

  /** Merging twice with the same config changes nothing more. */
  lemma MergeIdempotent(c: FunctionConfig, g: Profile)
    ensures MergeWithGlobal(c, MergeWithGlobal(c, g)) == MergeWithGlobal(c, g)
  {
    var r := MergeWithGlobal(c, g);
    var rr := MergeWithGlobal(c, r);
    MergeFields(c, g);
    MergeFields(c, r);
    forall b ensures GetBool(rr, b) == GetBool(r, b) {
      match BoolOverride(c, b)
      case None =>
      case Some(v) =>
    }
    forall i ensures GetInt(rr, i) == GetInt(r, i) {
      match IntOverride(c, i)
      case None =>
      case Some(v) =>
    }
    Extensionality(rr, r);
  }

  /** merge_with_global does not validate: a complexity of 21 spoils any global profile. */
  lemma MergeMayInvalidate(c: FunctionConfig, g: Profile)
    requires c.complexityOverride == Some(21)
    ensures !Validate(MergeWithGlobal(c, g))
  {
    MergeInt(c, g, BogusFlowComplexity);
  }

  /** A valid global profile stays valid when the complexity override, if any, is in 0..20. */
  lemma MergeKeepsValid(c: FunctionConfig, g: Profile)
    requires Validate(g)
    requires c.complexityOverride.Some? ==> 0 <= c.complexityOverride.value <= 20
    ensures Validate(MergeWithGlobal(c, g))
  {
    var r := MergeWithGlobal(c, g);
    ValidateBounds(g);
    forall k ensures InBounds(r, k) {
      MergeInt(c, g, k);
      assert InBounds(g, k);
    }
    ValidateBounds(r);
  }

  /** FunctionConfigRegistry: the overrides registered under each function name. */
  class FunctionConfigRegistry {
    var configs: map<string, FunctionConfig>

    constructor()
      ensures configs == map[]
    {
      configs := map[];
    }

    /** register_function: a later registration under the same name replaces the earlier one. */
    method RegisterFunction(functionName: string, config: FunctionConfig)
      modifies this
      ensures configs == old(configs)[functionName := config]
    {
      configs := configs[functionName := config];
    }

    /** get_function_config: the registered config, or nothing. */
    function GetFunctionConfig(functionName: string): (r: Option<FunctionConfig>)
      reads this
      ensures r.None? <==> functionName !in configs
      ensures r.Some? ==> r.value == configs[functionName]
    {
      if functionName in configs then Some(configs[functionName]) else None
    }

    /**
     * get_effective_profile: the global profile merged with the function's
     * overrides, or the global profile itself when none are registered.
     */
    function GetEffectiveProfile(functionName: string, manager: ConfigurationManager): (p: Profile)
      reads this, manager
      ensures functionName !in configs ==> p == manager.currentProfile
      ensures functionName in configs ==>
        (forall b :: GetBool(p, b) == OrElse(BoolOverride(configs[functionName], b), GetBool(manager.currentProfile, b)))
        && (forall i :: GetInt(p, i) == OrElse<Int32>(IntOverride(configs[functionName], i), GetInt(manager.currentProfile, i)))
    {
      match GetFunctionConfig(functionName)
      case Some(c) =>
        MergeFields(c, manager.currentProfile);
        MergeWithGlobal(c, manager.currentProfile)
      case None => manager.currentProfile
    }

    /** clear: every registration is dropped. */
    method Clear()
      modifies this
      ensures configs == map[]
    {
      configs := map[];
    }
  }
}
