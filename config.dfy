// ObfuscationProfile, its presets and text format, the ConfigurationManager
// that holds the current profile, and the per-function override registry.
module Config {
  import opened W = Word
  import opened Options
  import opened StdText

  /** The bool fields of ObfuscationProfile. */
  datatype BoolKey =
    | EnableControlFlowFlattening | EnableStringEncryption | DistributeAcrossSections
    | EnableVmExecution | MutateVmHandlers | EnableAntiDebug | EnableTimingChecks
    | EnableExceptionChecks | EnableHardwareBreakpointChecks | EnableJunkCode
    | UseRealisticJunk | EnableMba | EnablePerformanceMonitoring

  /** The int fields of ObfuscationProfile. */
  datatype IntKey =
    | BogusFlowComplexity | OpaquePredicateCount | EncryptionRounds | VmHandlerCount
    | VmMutationFrequency | JunkCodeDensity | MbaComplexity | MbaChainDepth

  datatype Key = BoolField(b: BoolKey) | IntField(i: IntKey)

  datatype Profile = Profile(
    enableControlFlowFlattening: bool,
    bogusFlowComplexity: Int32,
    opaquePredicateCount: Int32,
    enableStringEncryption: bool,
    distributeAcrossSections: bool,
    encryptionRounds: Int32,
    enableVmExecution: bool,
    vmHandlerCount: Int32,
    mutateVmHandlers: bool,
    vmMutationFrequency: Int32,
    enableAntiDebug: bool,
    enableTimingChecks: bool,
    enableExceptionChecks: bool,
    enableHardwareBreakpointChecks: bool,
    enableJunkCode: bool,
    junkCodeDensity: Int32,
    useRealisticJunk: bool,
    enableMba: bool,
    mbaComplexity: Int32,
    mbaChainDepth: Int32,
    enablePerformanceMonitoring: bool)

  function GetBool(p: Profile, k: BoolKey): bool
  {
    match k
    case EnableControlFlowFlattening => p.enableControlFlowFlattening
    case EnableStringEncryption => p.enableStringEncryption
    case DistributeAcrossSections => p.distributeAcrossSections
    case EnableVmExecution => p.enableVmExecution
    case MutateVmHandlers => p.mutateVmHandlers
    case EnableAntiDebug => p.enableAntiDebug
    case EnableTimingChecks => p.enableTimingChecks
    case EnableExceptionChecks => p.enableExceptionChecks
    case EnableHardwareBreakpointChecks => p.enableHardwareBreakpointChecks
    case EnableJunkCode => p.enableJunkCode
    case UseRealisticJunk => p.useRealisticJunk
    case EnableMba => p.enableMba
    case EnablePerformanceMonitoring => p.enablePerformanceMonitoring
  }

  function GetInt(p: Profile, k: IntKey): Int32
  {
    match k
    case BogusFlowComplexity => p.bogusFlowComplexity
    case OpaquePredicateCount => p.opaquePredicateCount
    case EncryptionRounds => p.encryptionRounds
    case VmHandlerCount => p.vmHandlerCount
    case VmMutationFrequency => p.vmMutationFrequency
    case JunkCodeDensity => p.junkCodeDensity
    case MbaComplexity => p.mbaComplexity
    case MbaChainDepth => p.mbaChainDepth
  }

  /** `profile.<field> = v` for a bool field. */
  function SetBool(p: Profile, k: BoolKey, v: bool): Profile
  {
    Profile(
      if k == EnableControlFlowFlattening then v else p.enableControlFlowFlattening,
      p.bogusFlowComplexity,
      p.opaquePredicateCount,
      if k == EnableStringEncryption then v else p.enableStringEncryption,
      if k == DistributeAcrossSections then v else p.distributeAcrossSections,
      p.encryptionRounds,
      if k == EnableVmExecution then v else p.enableVmExecution,
      p.vmHandlerCount,
      if k == MutateVmHandlers then v else p.mutateVmHandlers,
      p.vmMutationFrequency,
      if k == EnableAntiDebug then v else p.enableAntiDebug,
      if k == EnableTimingChecks then v else p.enableTimingChecks,
      if k == EnableExceptionChecks then v else p.enableExceptionChecks,
      if k == EnableHardwareBreakpointChecks then v else p.enableHardwareBreakpointChecks,
      if k == EnableJunkCode then v else p.enableJunkCode,
      p.junkCodeDensity,
      if k == UseRealisticJunk then v else p.useRealisticJunk,
      if k == EnableMba then v else p.enableMba,
      p.mbaComplexity,
      p.mbaChainDepth,
      if k == EnablePerformanceMonitoring then v else p.enablePerformanceMonitoring)
  }

  /** `profile.<field> = v` for an int field. */
  function SetInt(p: Profile, k: IntKey, v: Int32): Profile
  {
    Profile(
      p.enableControlFlowFlattening,
      if k == BogusFlowComplexity then v else p.bogusFlowComplexity,
      if k == OpaquePredicateCount then v else p.opaquePredicateCount,
      p.enableStringEncryption,
      p.distributeAcrossSections,
      if k == EncryptionRounds then v else p.encryptionRounds,
      p.enableVmExecution,
      if k == VmHandlerCount then v else p.vmHandlerCount,
      p.mutateVmHandlers,
      if k == VmMutationFrequency then v else p.vmMutationFrequency,
      p.enableAntiDebug,
      p.enableTimingChecks,
      p.enableExceptionChecks,
      p.enableHardwareBreakpointChecks,
      p.enableJunkCode,
      if k == JunkCodeDensity then v else p.junkCodeDensity,
      p.useRealisticJunk,
      p.enableMba,
      if k == MbaComplexity then v else p.mbaComplexity,
      if k == MbaChainDepth then v else p.mbaChainDepth,
      p.enablePerformanceMonitoring)
  }

  lemma SetBoolGetBool(p: Profile, k: BoolKey, v: bool, j: BoolKey)
    ensures GetBool(SetBool(p, k, v), j) == if j == k then v else GetBool(p, j)
  {
  }

  lemma SetBoolGetInt(p: Profile, k: BoolKey, v: bool, i: IntKey)
    ensures GetInt(SetBool(p, k, v), i) == GetInt(p, i)
  {
  }

  lemma SetIntGetInt(p: Profile, k: IntKey, v: Int32, j: IntKey)
    ensures GetInt(SetInt(p, k, v), j) == if j == k then v else GetInt(p, j)
  {
  }

  lemma SetIntGetBool(p: Profile, k: IntKey, v: Int32, b: BoolKey)
    ensures GetBool(SetInt(p, k, v), b) == GetBool(p, b)
  {
  }

  /** Two profiles that agree on every field are the same profile. */
  lemma Extensionality(p: Profile, q: Profile)
    requires forall b :: GetBool(p, b) == GetBool(q, b)
    requires forall i :: GetInt(p, i) == GetInt(q, i)
    ensures p == q
  {
    assert GetBool(p, EnableControlFlowFlattening) == GetBool(q, EnableControlFlowFlattening);
    assert GetBool(p, EnableStringEncryption) == GetBool(q, EnableStringEncryption);
    assert GetBool(p, DistributeAcrossSections) == GetBool(q, DistributeAcrossSections);
    assert GetBool(p, EnableVmExecution) == GetBool(q, EnableVmExecution);
    assert GetBool(p, MutateVmHandlers) == GetBool(q, MutateVmHandlers);
    assert GetBool(p, EnableAntiDebug) == GetBool(q, EnableAntiDebug);
    assert GetBool(p, EnableTimingChecks) == GetBool(q, EnableTimingChecks);
    assert GetBool(p, EnableExceptionChecks) == GetBool(q, EnableExceptionChecks);
    assert GetBool(p, EnableHardwareBreakpointChecks) == GetBool(q, EnableHardwareBreakpointChecks);
    assert GetBool(p, EnableJunkCode) == GetBool(q, EnableJunkCode);
    assert GetBool(p, UseRealisticJunk) == GetBool(q, UseRealisticJunk);
    assert GetBool(p, EnableMba) == GetBool(q, EnableMba);
    assert GetBool(p, EnablePerformanceMonitoring) == GetBool(q, EnablePerformanceMonitoring);
    assert GetInt(p, BogusFlowComplexity) == GetInt(q, BogusFlowComplexity);
    assert GetInt(p, OpaquePredicateCount) == GetInt(q, OpaquePredicateCount);
    assert GetInt(p, EncryptionRounds) == GetInt(q, EncryptionRounds);
    assert GetInt(p, VmHandlerCount) == GetInt(q, VmHandlerCount);
    assert GetInt(p, VmMutationFrequency) == GetInt(q, VmMutationFrequency);
    assert GetInt(p, JunkCodeDensity) == GetInt(q, JunkCodeDensity);
    assert GetInt(p, MbaComplexity) == GetInt(q, MbaComplexity);
    assert GetInt(p, MbaChainDepth) == GetInt(q, MbaChainDepth);
  }

  // ---------------------------------------------------------------------
  // Defaults and presets
  // ---------------------------------------------------------------------

  /** The default member initialisers of ObfuscationProfile. */
  const DefaultProfile := Profile(true, 5, 3, true, true, 1, true, 32, true, 100, true, true, true, true, true, 3, true, true, 5, 2, false)

  const MinimalProtection := Profile(true, 2, 1, true, false, 1, false, 16, false, 1000, true, true, false, false, false, 1, false, false, 2, 1, false)

  const BalancedProtection := Profile(true, 5, 3, true, true, 2, true, 32, true, 100, true, true, true, true, true, 3, true, true, 5, 2, false)

  const MaximumProtection := Profile(true, 10, 8, true, true, 3, true, 64, true, 50, true, true, true, true, true, 7, true, true, 10, 4, false)

  // ---------------------------------------------------------------------
  // validate
  // ---------------------------------------------------------------------

  /** validate(): the range checks in order, the first failing one returning false. */
  function Validate(p: Profile): (r: bool)
  {
    if p.bogusFlowComplexity < 0 || p.bogusFlowComplexity > 20 then false
    else if p.opaquePredicateCount < 0 || p.opaquePredicateCount > 50 then false
    else if p.encryptionRounds < 1 || p.encryptionRounds > 10 then false
    else if p.vmHandlerCount < 8 || p.vmHandlerCount > 256 then false
    else if p.vmMutationFrequency < 1 then false
    else if p.junkCodeDensity < 0 || p.junkCodeDensity > 10 then false
    else if p.mbaComplexity < 0 || p.mbaComplexity > 20 then false
    else if p.mbaChainDepth < 1 || p.mbaChainDepth > 10 then false
    else true
  }

  /** The accepted range of each int field; the frequency is bounded only by int. */
  function Bounds(k: IntKey): (r: (int, int))
    ensures r.0 <= r.1
  {
    match k
    case BogusFlowComplexity => (0, 20)
    case OpaquePredicateCount => (0, 50)
    case EncryptionRounds => (1, 10)
    case VmHandlerCount => (8, 256)
    case VmMutationFrequency => (1, 0x7FFF_FFFF)
    case JunkCodeDensity => (0, 10)
    case MbaComplexity => (0, 20)
    case MbaChainDepth => (1, 10)
  }

  predicate InBounds(p: Profile, k: IntKey)
  {
    Bounds(k).0 <= GetInt(p, k) <= Bounds(k).1
  }

  /** validate accepts a profile exactly when every int field lies in its range. */
  lemma ValidateBounds(p: Profile)
    ensures Validate(p) <==> forall k :: InBounds(p, k)
  {
    if Validate(p) {
      forall k ensures InBounds(p, k) {
        match k
        case BogusFlowComplexity =>
        case OpaquePredicateCount =>
        case EncryptionRounds =>
        case VmHandlerCount =>
        case VmMutationFrequency =>
        case JunkCodeDensity =>
        case MbaComplexity =>
        case MbaChainDepth =>
      }
    } else {
      assert !InBounds(p, BogusFlowComplexity) || !InBounds(p, OpaquePredicateCount)
        || !InBounds(p, EncryptionRounds) || !InBounds(p, VmHandlerCount)
        || !InBounds(p, VmMutationFrequency) || !InBounds(p, JunkCodeDensity)
        || !InBounds(p, MbaComplexity) || !InBounds(p, MbaChainDepth);
    }
  }

  /** The bool fields play no part in validation. */
  lemma ValidateIgnoresBools(p: Profile, k: BoolKey, v: bool)
    ensures Validate(SetBool(p, k, v)) == Validate(p)
  {
    var q := SetBool(p, k, v);
    assert forall i :: GetInt(q, i) == GetInt(p, i);
    assert q.bogusFlowComplexity == p.bogusFlowComplexity && q.opaquePredicateCount == p.opaquePredicateCount
      && q.encryptionRounds == p.encryptionRounds && q.vmHandlerCount == p.vmHandlerCount
      && q.vmMutationFrequency == p.vmMutationFrequency && q.junkCodeDensity == p.junkCodeDensity
      && q.mbaComplexity == p.mbaComplexity && q.mbaChainDepth == p.mbaChainDepth
    by {
      assert GetInt(q, BogusFlowComplexity) == GetInt(p, BogusFlowComplexity);
      assert GetInt(q, OpaquePredicateCount) == GetInt(p, OpaquePredicateCount);
      assert GetInt(q, EncryptionRounds) == GetInt(p, EncryptionRounds);
      assert GetInt(q, VmHandlerCount) == GetInt(p, VmHandlerCount);
      assert GetInt(q, VmMutationFrequency) == GetInt(p, VmMutationFrequency);
      assert GetInt(q, JunkCodeDensity) == GetInt(p, JunkCodeDensity);
      assert GetInt(q, MbaComplexity) == GetInt(p, MbaComplexity);
      assert GetInt(q, MbaChainDepth) == GetInt(p, MbaChainDepth);
    }
  }

  /** The default profile and the three presets all pass validation. */
  lemma PresetsValid()
    ensures Validate(DefaultProfile) && Validate(MinimalProtection)
    ensures Validate(BalancedProtection) && Validate(MaximumProtection)
  {
  }

  /** The default profile is BALANCED_PROTECTION except for one encryption round instead of two. */
  lemma DefaultIsBalancedWithOneRound()
    ensures DefaultProfile == BalancedProtection.(encryptionRounds := 1)
    ensures DefaultProfile != BalancedProtection
  {
  }

  /** junk_code_density: 0 and 10 pass, 11 and -1 fail. */
  lemma JunkDensityEdges(p: Profile)
    requires Validate(p)
    ensures Validate(p.(junkCodeDensity := 0)) && Validate(p.(junkCodeDensity := 10))
    ensures !Validate(p.(junkCodeDensity := 11)) && !Validate(p.(junkCodeDensity := -1))
  {
  }

  // ---------------------------------------------------------------------
  // serialize and deserialize
  // ---------------------------------------------------------------------

  /** The order in which serialize writes the fields, which is also the order deserialize tests the keys in. */
  const SerialOrder: seq<Key> := [
    BoolField(EnableControlFlowFlattening),
    IntField(BogusFlowComplexity),
    IntField(OpaquePredicateCount),
    BoolField(EnableStringEncryption),
    BoolField(DistributeAcrossSections),
    IntField(EncryptionRounds),
    BoolField(EnableVmExecution),
    IntField(VmHandlerCount),
    BoolField(MutateVmHandlers),
    IntField(VmMutationFrequency),
    BoolField(EnableAntiDebug),
    BoolField(EnableTimingChecks),
    BoolField(EnableExceptionChecks),
    BoolField(EnableHardwareBreakpointChecks),
    BoolField(EnableJunkCode),
    IntField(JunkCodeDensity),
    BoolField(UseRealisticJunk),
    BoolField(EnableMba),
    IntField(MbaComplexity),
    IntField(MbaChainDepth),
    BoolField(EnablePerformanceMonitoring)]

  /** The key each field is written under. */
  function Name(k: Key): string
  {
    match k
    case BoolField(EnableControlFlowFlattening) => "enable_control_flow_flattening"
    case IntField(BogusFlowComplexity) => "bogus_flow_complexity"
    case IntField(OpaquePredicateCount) => "opaque_predicate_count"
    case BoolField(EnableStringEncryption) => "enable_string_encryption"
    case BoolField(DistributeAcrossSections) => "distribute_across_sections"
    case IntField(EncryptionRounds) => "encryption_rounds"
    case BoolField(EnableVmExecution) => "enable_vm_execution"
    case IntField(VmHandlerCount) => "vm_handler_count"
    case BoolField(MutateVmHandlers) => "mutate_vm_handlers"
    case IntField(VmMutationFrequency) => "vm_mutation_frequency"
    case BoolField(EnableAntiDebug) => "enable_anti_debug"
    case BoolField(EnableTimingChecks) => "enable_timing_checks"
    case BoolField(EnableExceptionChecks) => "enable_exception_checks"
    case BoolField(EnableHardwareBreakpointChecks) => "enable_hardware_breakpoint_checks"
    case BoolField(EnableJunkCode) => "enable_junk_code"
    case IntField(JunkCodeDensity) => "junk_code_density"
    case BoolField(UseRealisticJunk) => "use_realistic_junk"
    case BoolField(EnableMba) => "enable_mba"
    case IntField(MbaComplexity) => "mba_complexity"
    case IntField(MbaChainDepth) => "mba_chain_depth"
    case BoolField(EnablePerformanceMonitoring) => "enable_performance_monitoring"
  }

  /**
   * The chain of key comparisons in deserialize; None for an unknown key.
   * Each test compares the length first, which does not change its outcome.
   */
  function KeyNamed(s: string): Option<Key>
  {
    if |s| == 30 && s == "enable_control_flow_flattening" then Some(BoolField(EnableControlFlowFlattening)) else
    if |s| == 21 && s == "bogus_flow_complexity" then Some(IntField(BogusFlowComplexity)) else
    if |s| == 22 && s == "opaque_predicate_count" then Some(IntField(OpaquePredicateCount)) else
    if |s| == 24 && s == "enable_string_encryption" then Some(BoolField(EnableStringEncryption)) else
    if |s| == 26 && s == "distribute_across_sections" then Some(BoolField(DistributeAcrossSections)) else
    if |s| == 17 && s == "encryption_rounds" then Some(IntField(EncryptionRounds)) else
    if |s| == 19 && s == "enable_vm_execution" then Some(BoolField(EnableVmExecution)) else
    if |s| == 16 && s == "vm_handler_count" then Some(IntField(VmHandlerCount)) else
    if |s| == 18 && s == "mutate_vm_handlers" then Some(BoolField(MutateVmHandlers)) else
    if |s| == 21 && s == "vm_mutation_frequency" then Some(IntField(VmMutationFrequency)) else
    if |s| == 17 && s == "enable_anti_debug" then Some(BoolField(EnableAntiDebug)) else
    if |s| == 20 && s == "enable_timing_checks" then Some(BoolField(EnableTimingChecks)) else
    if |s| == 23 && s == "enable_exception_checks" then Some(BoolField(EnableExceptionChecks)) else
    if |s| == 33 && s == "enable_hardware_breakpoint_checks" then Some(BoolField(EnableHardwareBreakpointChecks)) else
    if |s| == 16 && s == "enable_junk_code" then Some(BoolField(EnableJunkCode)) else
    if |s| == 17 && s == "junk_code_density" then Some(IntField(JunkCodeDensity)) else
    if |s| == 18 && s == "use_realistic_junk" then Some(BoolField(UseRealisticJunk)) else
    if |s| == 10 && s == "enable_mba" then Some(BoolField(EnableMba)) else
    if |s| == 14 && s == "mba_complexity" then Some(IntField(MbaComplexity)) else
    if |s| == 15 && s == "mba_chain_depth" then Some(IntField(MbaChainDepth)) else
    if |s| == 29 && s == "enable_performance_monitoring" then Some(BoolField(EnablePerformanceMonitoring)) else
    None
  }

  /** A key's name holds neither '=' nor '\n', and the comparison chain recognises it as that key. */
  ghost predicate Recognised(k: Key)
  {
    '=' !in Name(k) && '\n' !in Name(k) && KeyNamed(Name(k)) == Some(k)
  }

  lemma RecognisedEnableControlFlowFlattening()
    ensures Recognised(BoolField(EnableControlFlowFlattening))
  {
    assert Name(BoolField(EnableControlFlowFlattening)) == "enable_control_flow_flattening";
  }

  lemma RecognisedBogusFlowComplexity()
    ensures Recognised(IntField(BogusFlowComplexity))
  {
    assert Name(IntField(BogusFlowComplexity)) == "bogus_flow_complexity";
  }

  lemma RecognisedOpaquePredicateCount()
    ensures Recognised(IntField(OpaquePredicateCount))
  {
    assert Name(IntField(OpaquePredicateCount)) == "opaque_predicate_count";
  }

  lemma RecognisedEnableStringEncryption()
    ensures Recognised(BoolField(EnableStringEncryption))
  {
    assert Name(BoolField(EnableStringEncryption)) == "enable_string_encryption";
  }

  lemma RecognisedDistributeAcrossSections()
    ensures Recognised(BoolField(DistributeAcrossSections))
  {
    assert Name(BoolField(DistributeAcrossSections)) == "distribute_across_sections";
  }

  lemma RecognisedEncryptionRounds()
    ensures Recognised(IntField(EncryptionRounds))
  {
    assert Name(IntField(EncryptionRounds)) == "encryption_rounds";
  }

  lemma RecognisedEnableVmExecution()
    ensures Recognised(BoolField(EnableVmExecution))
  {
    assert Name(BoolField(EnableVmExecution)) == "enable_vm_execution";
  }

  lemma RecognisedVmHandlerCount()
    ensures Recognised(IntField(VmHandlerCount))
  {
    assert Name(IntField(VmHandlerCount)) == "vm_handler_count";
  }

  lemma RecognisedMutateVmHandlers()
    ensures Recognised(BoolField(MutateVmHandlers))
  {
    assert Name(BoolField(MutateVmHandlers)) == "mutate_vm_handlers";
  }

  lemma RecognisedVmMutationFrequency()
    ensures Recognised(IntField(VmMutationFrequency))
  {
    assert Name(IntField(VmMutationFrequency)) == "vm_mutation_frequency";
  }

  lemma RecognisedEnableAntiDebug()
    ensures Recognised(BoolField(EnableAntiDebug))
  {
    assert Name(BoolField(EnableAntiDebug)) == "enable_anti_debug";
  }

  lemma RecognisedEnableTimingChecks()
    ensures Recognised(BoolField(EnableTimingChecks))
  {
    assert Name(BoolField(EnableTimingChecks)) == "enable_timing_checks";
  }

  lemma RecognisedEnableExceptionChecks()
    ensures Recognised(BoolField(EnableExceptionChecks))
  {
    assert Name(BoolField(EnableExceptionChecks)) == "enable_exception_checks";
  }

  lemma RecognisedEnableHardwareBreakpointChecks()
    ensures Recognised(BoolField(EnableHardwareBreakpointChecks))
  {
    assert Name(BoolField(EnableHardwareBreakpointChecks)) == "enable_hardware_breakpoint_checks";
  }

  lemma RecognisedEnableJunkCode()
    ensures Recognised(BoolField(EnableJunkCode))
  {
    assert Name(BoolField(EnableJunkCode)) == "enable_junk_code";
  }

  lemma RecognisedJunkCodeDensity()
    ensures Recognised(IntField(JunkCodeDensity))
  {
    assert Name(IntField(JunkCodeDensity)) == "junk_code_density";
  }

  lemma RecognisedUseRealisticJunk()
    ensures Recognised(BoolField(UseRealisticJunk))
  {
    assert Name(BoolField(UseRealisticJunk)) == "use_realistic_junk";
  }

  lemma RecognisedEnableMba()
    ensures Recognised(BoolField(EnableMba))
  {
    assert Name(BoolField(EnableMba)) == "enable_mba";
  }

  lemma RecognisedMbaComplexity()
    ensures Recognised(IntField(MbaComplexity))
  {
    assert Name(IntField(MbaComplexity)) == "mba_complexity";
  }

  lemma RecognisedMbaChainDepth()
    ensures Recognised(IntField(MbaChainDepth))
  {
    assert Name(IntField(MbaChainDepth)) == "mba_chain_depth";
  }

  lemma RecognisedEnablePerformanceMonitoring()
    ensures Recognised(BoolField(EnablePerformanceMonitoring))
  {
    assert Name(BoolField(EnablePerformanceMonitoring)) == "enable_performance_monitoring";
  }

  /** Every key serialize writes is read back as the same key. */
  lemma AllRecognised(k: Key)
    ensures Recognised(k)
  {
    match k
    case BoolField(EnableControlFlowFlattening) => RecognisedEnableControlFlowFlattening();
    case IntField(BogusFlowComplexity) => RecognisedBogusFlowComplexity();
    case IntField(OpaquePredicateCount) => RecognisedOpaquePredicateCount();
    case BoolField(EnableStringEncryption) => RecognisedEnableStringEncryption();
    case BoolField(DistributeAcrossSections) => RecognisedDistributeAcrossSections();
    case IntField(EncryptionRounds) => RecognisedEncryptionRounds();
    case BoolField(EnableVmExecution) => RecognisedEnableVmExecution();
    case IntField(VmHandlerCount) => RecognisedVmHandlerCount();
    case BoolField(MutateVmHandlers) => RecognisedMutateVmHandlers();
    case IntField(VmMutationFrequency) => RecognisedVmMutationFrequency();
    case BoolField(EnableAntiDebug) => RecognisedEnableAntiDebug();
    case BoolField(EnableTimingChecks) => RecognisedEnableTimingChecks();
    case BoolField(EnableExceptionChecks) => RecognisedEnableExceptionChecks();
    case BoolField(EnableHardwareBreakpointChecks) => RecognisedEnableHardwareBreakpointChecks();
    case BoolField(EnableJunkCode) => RecognisedEnableJunkCode();
    case IntField(JunkCodeDensity) => RecognisedJunkCodeDensity();
    case BoolField(UseRealisticJunk) => RecognisedUseRealisticJunk();
    case BoolField(EnableMba) => RecognisedEnableMba();
    case IntField(MbaComplexity) => RecognisedMbaComplexity();
    case IntField(MbaChainDepth) => RecognisedMbaChainDepth();
    case BoolField(EnablePerformanceMonitoring) => RecognisedEnablePerformanceMonitoring();
  }

  /** The value written for a field: 1/0 for a bool, decimal for an int. */
  function Render(p: Profile, k: Key): string
  {
    match k
    case BoolField(b) => BoolText(GetBool(p, b))
    case IntField(i) => Decimal(GetInt(p, i))
  }

  function Line(p: Profile, k: Key): string
  {
    Name(k) + "=" + Render(p, k)
  }

  function ProfileLines(p: Profile, keys: seq<Key>): (ls: seq<string>)
    ensures |ls| == |keys|
    ensures forall j :: 0 <= j < |ls| ==> ls[j] == Line(p, keys[j])
  {
    if |keys| == 0 then [] else [Line(p, keys[0])] + ProfileLines(p, keys[1..])
  }

  /** serialize(): one `key=value` line per field, each ended by '\n'. */
  function Serialize(p: Profile): string
  {
    JoinLines(ProfileLines(p, SerialOrder))
  }

  /** parse_bool: exactly "1" and "true" are true. */
  function ParseBool(s: string): bool
  {
    s == "1" || s == "true"
  }

  /** How deserialize reads one line. */
  datatype LineKind =
    | Skipped
    | BoolLine(b: BoolKey, value: string)
    | IntLine(i: IntKey, value: string)

  /** Empty lines, lines without '=' and unknown keys are skipped; the key ends at the first '='. */
  function Classify(line: string): LineKind
  {
    if |line| == 0 then Skipped
    else match Find(line, '=')
      case None => Skipped
      case Some(pos) =>
        match KeyNamed(line[..pos])
        case None => Skipped
        case Some(BoolField(b)) => BoolLine(b, line[pos + 1..])
        case Some(IntField(i)) => IntLine(i, line[pos + 1..])
  }

  /** One iteration of the getline loop; a stoi failure escapes as an error. */
  function ApplyLine(p: Profile, line: string): Parsed<Profile>
  {
    Apply(p, Classify(line))
  }

  /** The assignment a classified line makes. */
  function Apply(p: Profile, kind: LineKind): Parsed<Profile>
  {
    match kind
    case Skipped => Ok(p)
    case BoolLine(b, v) => Ok(SetBool(p, b, ParseBool(v)))
    case IntLine(i, v) =>
      match Stoi(v)
      case Err(e) => Err(e)
      case Ok(n) => Ok(SetInt(p, i, n))
  }

  function ApplyLines(p: Profile, lines: seq<string>): Parsed<Profile>
    decreases |lines|
  {
    if |lines| == 0 then Ok(p)
    else match ApplyLine(p, lines[0])
      case Err(e) => Err(e)
      case Ok(q) => ApplyLines(q, lines[1..])
  }

  /** deserialize(data) as a value: the lines applied in order to the default profile. */
  function Deserialize(data: string): Parsed<Profile>
  {
    ApplyLines(DefaultProfile, Lines(data))
  }

  // ---------------------------------------------------------------------
  // deserialize(serialize(p)) == p
  // ---------------------------------------------------------------------

  /** Field k of q replaced by field k of p. */
  function Copy(q: Profile, p: Profile, k: Key): Profile
  {
    match k
    case BoolField(b) => SetBool(q, b, GetBool(p, b))
    case IntField(i) => SetInt(q, i, GetInt(p, i))
  }

  /** The fields in keys of q replaced, in order, by those of p. */
  function Overwrite(q: Profile, p: Profile, keys: seq<Key>): Profile
    decreases |keys|
  {
    if |keys| == 0 then q else Overwrite(Copy(q, p, keys[0]), p, keys[1..])
  }

  lemma LineOf(p: Profile, k: Key)
    ensures '\n' !in Line(p, k)
  {
    AllRecognised(k);
  }

  /** A line `name=v` of a known key is read as that key with value v. */
  lemma ClassifyNamed(k: Key, v: string)
    requires Recognised(k)
    ensures Classify(Name(k) + "=" + v) == match k
      case BoolField(b) => BoolLine(b, v)
      case IntField(i) => IntLine(i, v)
  {
    var line := Name(k) + "=" + v;
    var rest := "=" + v;
    assert line == Name(k) + rest;
    FindAfter(Name(k), '=', rest);
    var pos := |Name(k)|;
    assert line[..pos] == Name(k);
    assert line[pos + 1..] == v;
  }

  /** deserialize reads the line serialize wrote for field k back into field k. */
  lemma LineApplies(q: Profile, p: Profile, k: Key)
    ensures ApplyLine(q, Line(p, k)) == Ok(Copy(q, p, k))
  {
    AllRecognised(k);
    ClassifyNamed(k, Render(p, k));
    match k
    case BoolField(b) =>
      assert ParseBool(BoolText(GetBool(p, b))) == GetBool(p, b);
    case IntField(i) =>
      assert Decimal(GetInt(p, i)) + [] == Decimal(GetInt(p, i));
      StoiDecimal(GetInt(p, i), []);
  }

  lemma {:induction false} ApplyProfileLines(q: Profile, p: Profile, keys: seq<Key>)
    ensures ApplyLines(q, ProfileLines(p, keys)) == Ok(Overwrite(q, p, keys))
    decreases |keys|
  {
    if |keys| > 0 {
      var ls := ProfileLines(p, keys);
      assert ls[1..] == ProfileLines(p, keys[1..]);
      LineApplies(q, p, keys[0]);
      ApplyProfileLines(Copy(q, p, keys[0]), p, keys[1..]);
    }
  }

  lemma CopyBool(q: Profile, p: Profile, k: Key, b: BoolKey)
    ensures GetBool(Copy(q, p, k), b) == if k == BoolField(b) then GetBool(p, b) else GetBool(q, b)
  {
    match k
    case BoolField(c) => SetBoolGetBool(q, c, GetBool(p, c), b);
    case IntField(i) => SetIntGetBool(q, i, GetInt(p, i), b);
  }

  lemma CopyInt(q: Profile, p: Profile, k: Key, i: IntKey)
    ensures GetInt(Copy(q, p, k), i) == if k == IntField(i) then GetInt(p, i) else GetInt(q, i)
  {
    match k
    case BoolField(c) => SetBoolGetInt(q, c, GetBool(p, c), i);
    case IntField(j) => SetIntGetInt(q, j, GetInt(p, j), i);
  }

  lemma {:induction false} OverwriteBool(q: Profile, p: Profile, keys: seq<Key>, b: BoolKey)
    ensures GetBool(Overwrite(q, p, keys), b) == if BoolField(b) in keys then GetBool(p, b) else GetBool(q, b)
    decreases |keys|
  {
    if |keys| > 0 {
      CopyBool(q, p, keys[0], b);
      OverwriteBool(Copy(q, p, keys[0]), p, keys[1..], b);
      assert BoolField(b) in keys <==> keys[0] == BoolField(b) || BoolField(b) in keys[1..];
    }
  }

  lemma {:induction false} OverwriteInt(q: Profile, p: Profile, keys: seq<Key>, i: IntKey)
    ensures GetInt(Overwrite(q, p, keys), i) == if IntField(i) in keys then GetInt(p, i) else GetInt(q, i)
    decreases |keys|
  {
    if |keys| > 0 {
      CopyInt(q, p, keys[0], i);
      OverwriteInt(Copy(q, p, keys[0]), p, keys[1..], i);
      assert IntField(i) in keys <==> keys[0] == IntField(i) || IntField(i) in keys[1..];
    }
  }

  /** serialize writes every bool field. */
  lemma BoolSerialized(b: BoolKey)
    ensures BoolField(b) in SerialOrder
  {
    match b
    case EnableControlFlowFlattening => assert SerialOrder[0] == BoolField(b);
    case EnableStringEncryption => assert SerialOrder[3] == BoolField(b);
    case DistributeAcrossSections => assert SerialOrder[4] == BoolField(b);
    case EnableVmExecution => assert SerialOrder[6] == BoolField(b);
    case MutateVmHandlers => assert SerialOrder[8] == BoolField(b);
    case EnableAntiDebug => assert SerialOrder[10] == BoolField(b);
    case EnableTimingChecks => assert SerialOrder[11] == BoolField(b);
    case EnableExceptionChecks => assert SerialOrder[12] == BoolField(b);
    case EnableHardwareBreakpointChecks => assert SerialOrder[13] == BoolField(b);
    case EnableJunkCode => assert SerialOrder[14] == BoolField(b);
    case UseRealisticJunk => assert SerialOrder[16] == BoolField(b);
    case EnableMba => assert SerialOrder[17] == BoolField(b);
    case EnablePerformanceMonitoring => assert SerialOrder[20] == BoolField(b);
  }

  /** serialize writes every int field. */
  lemma IntSerialized(i: IntKey)
    ensures IntField(i) in SerialOrder
  {
    match i
    case BogusFlowComplexity => assert SerialOrder[1] == IntField(i);
    case OpaquePredicateCount => assert SerialOrder[2] == IntField(i);
    case EncryptionRounds => assert SerialOrder[5] == IntField(i);
    case VmHandlerCount => assert SerialOrder[7] == IntField(i);
    case VmMutationFrequency => assert SerialOrder[9] == IntField(i);
    case JunkCodeDensity => assert SerialOrder[15] == IntField(i);
    case MbaComplexity => assert SerialOrder[18] == IntField(i);
    case MbaChainDepth => assert SerialOrder[19] == IntField(i);
  }

  /** Copying every field in serialize's order yields p, whatever profile it starts from. */
  lemma OverwriteAll(q: Profile, p: Profile)
    ensures Overwrite(q, p, SerialOrder) == p
  {
    var r := Overwrite(q, p, SerialOrder);
    forall b ensures GetBool(r, b) == GetBool(p, b) {
      OverwriteBool(q, p, SerialOrder, b);
      BoolSerialized(b);
    }
    forall i ensures GetInt(r, i) == GetInt(p, i) {
      OverwriteInt(q, p, SerialOrder, i);
      IntSerialized(i);
    }
    Extensionality(r, p);
  }

  /** deserialize(serialize(p)) == p for every profile, valid or not. */
  lemma RoundTrip(p: Profile)
    ensures Deserialize(Serialize(p)) == Ok(p)
  {
    var ls := ProfileLines(p, SerialOrder);
    forall j | 0 <= j < |ls| ensures '\n' !in ls[j] {
      LineOf(p, SerialOrder[j]);
    }
    LinesOfJoin(ls);
    ApplyProfileLines(DefaultProfile, p, SerialOrder);
    OverwriteAll(DefaultProfile, p);
  }

  // ---------------------------------------------------------------------
  // What deserialize reads from arbitrary text
  // ---------------------------------------------------------------------

  /** The line sets bool field b. */
  predicate SetsBool(line: string, b: BoolKey)
  {
    Classify(line).BoolLine? && Classify(line).b == b
  }

  /** The line sets int field i. */
  predicate SetsInt(line: string, i: IntKey)
  {
    Classify(line).IntLine? && Classify(line).i == i
  }

  /** The line names an int field whose value stoi rejects. */
  predicate Fails(line: string)
  {
    Classify(line).IntLine? && Stoi(Classify(line).value).Err?
  }

  lemma ApplyBool(p: Profile, kind: LineKind, r: Profile, b: BoolKey)
    requires Apply(p, kind) == Ok(r)
    ensures GetBool(r, b) == if kind.BoolLine? && kind.b == b then ParseBool(kind.value) else GetBool(p, b)
  {
    match kind
    case Skipped =>
    case BoolLine(c, v) => SetBoolGetBool(p, c, ParseBool(v), b);
    case IntLine(i, v) => SetIntGetBool(p, i, Stoi(v).value, b);
  }

  lemma ApplyInt(p: Profile, kind: LineKind, r: Profile, i: IntKey)
    requires Apply(p, kind) == Ok(r)
    ensures kind.IntLine? && kind.i == i ==> Stoi(kind.value).Ok?
    ensures GetInt(r, i) == if kind.IntLine? && kind.i == i then Stoi(kind.value).value else GetInt(p, i)
  {
    match kind
    case Skipped =>
    case BoolLine(c, v) => SetBoolGetInt(p, c, ParseBool(v), i);
    case IntLine(j, v) => SetIntGetInt(p, j, Stoi(v).value, i);
  }

  /** A line fails exactly when applying it is an error. */
  lemma ApplyLineFails(p: Profile, line: string)
    ensures ApplyLine(p, line).Err? <==> Fails(line)
  {
  }

  /** A successful run of the lines starts with a successful first line and goes on from its result. */
  lemma ApplyLinesFirst(q: Profile, ls: seq<string>, r: Profile)
    requires ApplyLines(q, ls) == Ok(r) && |ls| > 0
    ensures ApplyLine(q, ls[0]).Ok? && ApplyLines(ApplyLine(q, ls[0]).value, ls[1..]) == Ok(r)
  {
  }

  /** A bool field no line sets keeps its starting value. */
  lemma {:induction false} UnsetBoolKept(q: Profile, ls: seq<string>, r: Profile, b: BoolKey)
    requires ApplyLines(q, ls) == Ok(r)
    requires forall j :: 0 <= j < |ls| ==> !SetsBool(ls[j], b)
    ensures GetBool(r, b) == GetBool(q, b)
    decreases |ls|
  {
    if |ls| > 0 {
      var q1 := ApplyLine(q, ls[0]).value;
      ApplyBool(q, Classify(ls[0]), q1, b);
      var tail := ls[1..];
      assert forall j :: 0 <= j < |tail| ==> tail[j] == ls[j + 1];
      UnsetBoolKept(q1, tail, r, b);
    }
  }

  /** A bool field takes the value of the last line that sets it. */
  lemma {:induction false} LastBoolWins(q: Profile, ls: seq<string>, r: Profile, b: BoolKey, j: nat)
    requires ApplyLines(q, ls) == Ok(r)
    requires j < |ls| && SetsBool(ls[j], b)
    requires forall k :: j < k < |ls| ==> !SetsBool(ls[k], b)
    ensures GetBool(r, b) == ParseBool(Classify(ls[j]).value)
    decreases |ls|
  {
    ApplyLinesFirst(q, ls, r);
    var q1 := ApplyLine(q, ls[0]).value;
    ApplyBool(q, Classify(ls[0]), q1, b);
    var tail := ls[1..];
    if j == 0 {
      forall k | 0 <= k < |tail|
        ensures !SetsBool(tail[k], b)
      {
        assert tail[k] == ls[k + 1];
      }
      UnsetBoolKept(q1, tail, r, b);
    } else {
      forall k | j - 1 < k < |tail|
        ensures !SetsBool(tail[k], b)
      {
        assert tail[k] == ls[k + 1];
      }
      LastBoolWins(q1, tail, r, b, j - 1);
    }
  }

  /** An int field no line sets keeps its starting value. */
  lemma {:induction false} UnsetIntKept(q: Profile, ls: seq<string>, r: Profile, i: IntKey)
    requires ApplyLines(q, ls) == Ok(r)
    requires forall j :: 0 <= j < |ls| ==> !SetsInt(ls[j], i)
    ensures GetInt(r, i) == GetInt(q, i)
    decreases |ls|
  {
    if |ls| > 0 {
      var q1 := ApplyLine(q, ls[0]).value;
      ApplyInt(q, Classify(ls[0]), q1, i);
      var tail := ls[1..];
      assert forall j :: 0 <= j < |tail| ==> tail[j] == ls[j + 1];
      UnsetIntKept(q1, tail, r, i);
    }
  }

  /** An int field takes the value stoi read from the last line that sets it. */
  lemma {:induction false} LastIntWins(q: Profile, ls: seq<string>, r: Profile, i: IntKey, j: nat)
    requires ApplyLines(q, ls) == Ok(r)
    requires j < |ls| && SetsInt(ls[j], i)
    requires forall k :: j < k < |ls| ==> !SetsInt(ls[k], i)
    ensures Stoi(Classify(ls[j]).value).Ok?
    ensures GetInt(r, i) == Stoi(Classify(ls[j]).value).value
    decreases |ls|
  {
    ApplyLinesFirst(q, ls, r);
    var q1 := ApplyLine(q, ls[0]).value;
    ApplyInt(q, Classify(ls[0]), q1, i);
    var tail := ls[1..];
    if j == 0 {
      forall k | 0 <= k < |tail|
        ensures !SetsInt(tail[k], i)
      {
        assert tail[k] == ls[k + 1];
      }
      UnsetIntKept(q1, tail, r, i);
    } else {
      forall k | j - 1 < k < |tail|
        ensures !SetsInt(tail[k], i)
      {
        assert tail[k] == ls[k + 1];
      }
      LastIntWins(q1, tail, r, i, j - 1);
    }
  }

  /** deserialize fails exactly when some line gives an int field a value stoi rejects. */
  lemma {:induction false} ApplyLinesFails(q: Profile, ls: seq<string>)
    ensures ApplyLines(q, ls).Err? <==> exists j :: 0 <= j < |ls| && Fails(ls[j])
    decreases |ls|
  {
    if |ls| > 0 {
      ApplyLineFails(q, ls[0]);
      var tail := ls[1..];
      assert forall j :: 1 <= j < |ls| ==> ls[j] == tail[j - 1];
      if !Fails(ls[0]) {
        ApplyLinesFails(ApplyLine(q, ls[0]).value, tail);
        if exists j :: 0 <= j < |ls| && Fails(ls[j]) {
          var j :| 0 <= j < |ls| && Fails(ls[j]);
          assert Fails(tail[j - 1]);
        }
      }
    }
  }

  /** Empty text reads as the default profile. */
  lemma DeserializeEmpty()
    ensures Deserialize("") == Ok(DefaultProfile)
  {
    assert Find("", '\n') == None;
  }

  /** deserialize: the getline loop over a local profile. */
  method DeserializeText(data: string) returns (r: Parsed<Profile>)
    ensures r == Deserialize(data)
  {
    var lines := Lines(data);
    var profile := DefaultProfile;
    var i := 0;
    while i < |lines|
      invariant 0 <= i <= |lines|
      invariant ApplyLines(profile, lines[i..]) == Deserialize(data)
    {
      assert lines[i..][1..] == lines[i + 1..];
      var kind := Classify(lines[i]);
      match kind {
        case Skipped =>
        case BoolLine(b, v) =>
          profile := SetBool(profile, b, ParseBool(v));
        case IntLine(k, v) =>
          var n := Stoi(v);
          if n.Err? {
            return Err(n.error);
          }
          profile := SetInt(profile, k, n.value);
      }
      i := i + 1;
    }
    r := Ok(profile);
  }
}
