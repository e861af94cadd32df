// The engine's error table: the numeric error codes and their categories,
// the process-wide recovery-strategy table indexed by the thousands digit of
// a code, the global error handler, and the default strategies registered
// at start-up.
module Errors {
  import opened W = Word
  import opened Options

  datatype ErrorCode =
    | Success
    | ApiResolutionFailed | WrapperInitFailed | ModuleLoadFailed | PebAccessFailed
    | ModuleNotFound | ExportNotFound
    | VmExecutionError | DecryptionFailed | DebuggerDetected | VmInvalidOpcode
    | VmInvalidRegister | VmStackOverflow | VmStackUnderflow | StringDecryptFailed
    | InvalidParameter | IncompatibleModules | FeatureUnavailable | InvalidProfile
    | InvalidComplexityLevel

  /** The uint32 value behind each enumerator. */
  function Value(c: ErrorCode): Word
  {
    match c
    case Success => 0
    case ApiResolutionFailed => 1000
    case WrapperInitFailed => 1001
    case ModuleLoadFailed => 1002
    case PebAccessFailed => 1003
    case ModuleNotFound => 1004
    case ExportNotFound => 1005
    case VmExecutionError => 2000
    case DecryptionFailed => 2001
    case DebuggerDetected => 2002
    case VmInvalidOpcode => 2003
    case VmInvalidRegister => 2004
    case VmStackOverflow => 2005
    case VmStackUnderflow => 2006
    case StringDecryptFailed => 2007
    case InvalidParameter => 3000
    case IncompatibleModules => 3001
    case FeatureUnavailable => 3002
    case InvalidProfile => 3003
    case InvalidComplexityLevel => 3004
  }

  /** The enumerator a uint32 value names, if any. */
  function FromValue(v: Word): (r: Option<ErrorCode>)
    ensures r.Some? ==> Value(r.value) == v
  {
    if v < 1000 then (if v == 0 then Some(Success) else None)
    else if v <= 1005 then
      Some([ApiResolutionFailed, WrapperInitFailed, ModuleLoadFailed, PebAccessFailed,
            ModuleNotFound, ExportNotFound][v - 1000])
    else if 2000 <= v <= 2007 then
      Some([VmExecutionError, DecryptionFailed, DebuggerDetected, VmInvalidOpcode,
            VmInvalidRegister, VmStackOverflow, VmStackUnderflow, StringDecryptFailed][v - 2000])
    else if 3000 <= v <= 3004 then
      Some([InvalidParameter, IncompatibleModules, FeatureUnavailable, InvalidProfile,
            InvalidComplexityLevel][v - 3000])
    else None
  }

  /** Distinct enumerators have distinct values: each value reads back as its enumerator. */
  lemma ValueRoundTrip(c: ErrorCode)
    ensures FromValue(Value(c)) == Some(c)
  {
    match c
    case Success =>
    case ApiResolutionFailed =>
    case WrapperInitFailed =>
    case ModuleLoadFailed =>
    case PebAccessFailed =>
    case ModuleNotFound =>
    case ExportNotFound =>
    case VmExecutionError =>
    case DecryptionFailed =>
    case DebuggerDetected =>
    case VmInvalidOpcode =>
    case VmInvalidRegister =>
    case VmStackOverflow =>
    case VmStackUnderflow =>
    case StringDecryptFailed =>
    case InvalidParameter =>
    case IncompatibleModules =>
    case FeatureUnavailable =>
    case InvalidProfile =>
    case InvalidComplexityLevel =>
  }

  /** What `Error` carries; the message and file pointers may be null. */
  datatype Error = Error(code: Word, message: Option<string>, file: Option<string>, line: Int32)

  datatype Category = Initialization | Runtime | Configuration | Unknown

  /** The text `category()` returns. */
  function CategoryName(c: Category): string
  {
    match c
    case Initialization => "Initialization"
    case Runtime => "Runtime"
    case Configuration => "Configuration"
    case Unknown => "Unknown"
  }

  /** The category that belongs to a recovery slot. */
  function SlotCategory(slot: nat): Category
  {
    if slot == 1 then Initialization
    else if slot == 2 then Runtime
    else if slot == 3 then Configuration
    else Unknown
  }

  /** The recovery slot of a code: its thousands. */
  function Slot(code: Word): nat
  {
    code / 1000
  }

  /**
   * The category of a code value, by range. It is a function of the code's
   * recovery slot: codes that share a slot share a category.
   */
  function CategoryOf(code: Word): (c: Category)
    ensures c == SlotCategory(Slot(code))
  {
    if 1000 <= code < 2000 then Initialization
    else if 2000 <= code < 3000 then Runtime
    else if 3000 <= code < 4000 then Configuration
    else Unknown
  }

  /** Every code but SUCCESS lies in 1000..3004 and has a known category. */
  lemma CodesCategorised(c: ErrorCode)
    ensures c != Success ==> 1000 <= Value(c) <= 3004
    ensures CategoryOf(Value(c)) == Unknown <==> c == Success
  {
  }

  // ---- Recovery strategies ------------------------------------------------

  /** A recovery strategy: given the error, whether it was recovered. */
  type Strategy = Error -> bool

  /** The ten slots of the strategy table; an empty std::function is None. */
  type Slots = s: seq<Option<Strategy>> | |s| == 10 witness seq(10, _ => None)

  const EmptySlots: Slots := seq(10, _ => None)

  /** The table after `register_recovery_strategy(code, strategy)`. */
  function Register(slots: Slots, code: Word, strategy: Strategy): Slots
  {
    var k := Slot(code);
    if k < 10 then slots[k := Some(strategy)] else slots
  }

  /** What `attempt_recovery(e)` returns for a table. */
  function Recover(slots: Slots, e: Error): bool
  {
    var k := Slot(e.code);
    if k < 10 && slots[k].Some? then slots[k].value(e) else false
  }

  /**
   * A registration decides recovery for every code in the same thousand,
   * whichever code it was registered under and whatever was there before.
   */
  lemma RegisterWins(slots: Slots, code: Word, strategy: Strategy, e: Error)
    requires Slot(e.code) == Slot(code) < 10
    ensures Recover(Register(slots, code, strategy), e) == strategy(e)
  {
  }

  /** A registration leaves recovery for the other thousands as it was. */
  lemma RegisterElsewhere(slots: Slots, code: Word, strategy: Strategy, e: Error)
    requires Slot(e.code) != Slot(code)
    ensures Recover(Register(slots, code, strategy), e) == Recover(slots, e)
  {
  }

  /** Codes of 10000 and above are neither registered nor recovered. */
  lemma HighCodesIgnored(slots: Slots, code: Word, strategy: Strategy, e: Error)
    requires Slot(code) >= 10 && Slot(e.code) >= 10
    ensures Register(slots, code, strategy) == slots
    ensures !Recover(slots, e)
  {
  }

  /** Nothing is recovered before any registration. */
  lemma EmptyNeverRecovers(e: Error)
    ensures !Recover(EmptySlots, e)
  {
  }

  // The five default strategies log the error (left out) and answer.
  function ApiResolutionRecovery(e: Error): bool { true }
  function WrapperInitRecovery(e: Error): bool { true }
  function VmExecutionRecovery(e: Error): bool { false }
  function DecryptionFailureRecovery(e: Error): bool { true }
  function ConfigErrorRecovery(e: Error): bool { true }

  /** The table after `register_default_recovery_strategies()`. */
  function RegisterDefaults(slots: Slots): Slots
  {
    var s1 := Register(slots, Value(ApiResolutionFailed), ApiResolutionRecovery);
    var s2 := Register(s1, Value(WrapperInitFailed), WrapperInitRecovery);
    var s3 := Register(s2, Value(VmExecutionError), VmExecutionRecovery);
    var s4 := Register(s3, Value(DecryptionFailed), DecryptionFailureRecovery);
    Register(s4, Value(InvalidParameter), ConfigErrorRecovery)
  }

  /**
   * After the defaults every code with a known category is recovered, and the
   * rest is left to whatever the table held before.
   */
  lemma DefaultsRecover(slots: Slots, e: Error)
    ensures Recover(RegisterDefaults(slots), e) ==
      if CategoryOf(e.code) != Unknown then true else Recover(slots, e)
  {
    var k := Slot(e.code);
    var d := RegisterDefaults(slots);
    if k == 1 {
      assert d[1] == Some(WrapperInitRecovery);
    } else if k == 2 {
      assert d[2] == Some(DecryptionFailureRecovery);
    } else if k == 3 {
      assert d[3] == Some(ConfigErrorRecovery);
    } else if k < 10 {
      assert d[k] == slots[k];
    }
  }

  /**
   * VM_EXECUTION_ERROR shares slot 2 with DECRYPTION_FAILED, whose strategy
   * was registered later: a VM execution error is reported as recovered
   * although its own strategy answers false.
   */
  lemma VmExecutionRecovered(slots: Slots, e: Error)
    requires e.code == Value(VmExecutionError)
    ensures !VmExecutionRecovery(e)
    ensures Recover(RegisterDefaults(slots), e)
  {
    DefaultsRecover(slots, e);
  }

  // ---- The manager's static state ------------------------------------------

  /** The identity of an installed error handler; what it does is left out. */
  datatype Handler = Handler(id: nat)

  /** Where `report` sends an error. */
  datatype Dispatch = Handled(handler: Handler, error: Error) | Logged(error: Error)

  /**
   * `ErrorManager`'s static members; one object stands for them. Its
   * constructor is the static initialisation: no handler and ten empty slots.
   */
  class ErrorManager {
    var globalHandler: Option<Handler>
    const recoveryStrategies: array<Option<Strategy>>

    ghost predicate Valid()
      reads this
    {
      recoveryStrategies.Length == 10
    }

    /** The strategy table as a value. */
    function Table(): Slots
      requires Valid()
      reads this, recoveryStrategies
    {
      recoveryStrategies[..]
    }

    constructor ()
      ensures Valid() && fresh(recoveryStrategies)
      ensures globalHandler == None && Table() == EmptySlots
    {
      globalHandler := None;
      recoveryStrategies := new Option<Strategy>[10](_ => None);
    }

    /** `set_error_handler`: replaces the handler; None clears it. */
    method SetErrorHandler(handler: Option<Handler>)
      modifies this
      ensures globalHandler == handler
    {
      globalHandler := handler;
    }

    method RegisterRecoveryStrategy(code: Word, strategy: Strategy)
      requires Valid()
      modifies recoveryStrategies
      ensures Table() == Register(old(Table()), code, strategy)
    {
      var index := code / 1000;
      if index < 10 {
        recoveryStrategies[index] := Some(strategy);
      }
      assert recoveryStrategies[..] == Register(old(recoveryStrategies[..]), code, strategy);
    }

    method AttemptRecovery(e: Error) returns (recovered: bool)
      requires Valid()
      ensures recovered == Recover(Table(), e)
    {
      var index := e.code / 1000;
      if index < 10 && recoveryStrategies[index].Some? {
        return recoveryStrategies[index].value(e);
      }
      return false;
    }

    /** `report`: the installed handler gets the error; without one it is logged. */
    method Report(e: Error) returns (d: Dispatch)
      ensures d.Handled? <==> globalHandler.Some?
      ensures d.Handled? ==> d.handler == globalHandler.value
      ensures d.error == e
    {
      var handler := globalHandler;
      if handler.Some? {
        d := Handled(handler.value, e);
      } else {
        d := Logged(e);
      }
    }
  }

  method RegisterDefaultRecoveryStrategies(m: ErrorManager)
    requires m.Valid()
    modifies m.recoveryStrategies
    ensures m.Table() == RegisterDefaults(old(m.Table()))
  {
    m.RegisterRecoveryStrategy(Value(ApiResolutionFailed), ApiResolutionRecovery);
    m.RegisterRecoveryStrategy(Value(WrapperInitFailed), WrapperInitRecovery);
    m.RegisterRecoveryStrategy(Value(VmExecutionError), VmExecutionRecovery);
    m.RegisterRecoveryStrategy(Value(DecryptionFailed), DecryptionFailureRecovery);
    m.RegisterRecoveryStrategy(Value(InvalidParameter), ConfigErrorRecovery);
  }

  /**
   * VIVISECT_ERROR_WITH_RECOVERY: the error is reported only when no
   * strategy recovers it.
   */
  method ReportWithRecovery(m: ErrorManager, e: Error) returns (recovered: bool, d: Option<Dispatch>)
    requires m.Valid()
    ensures recovered == Recover(m.Table(), e)
    ensures d.None? <==> recovered
    ensures d.Some? ==> d.value.error == e && (d.value.Handled? <==> m.globalHandler.Some?)
  {
    recovered := m.AttemptRecovery(e);
    if recovered {
      d := None;
    } else {
      var r := m.Report(e);
      d := Some(r);
    }
  }
}
