/** The parameter reconciler of executeStoredProcedure: the three checks that relate the
    signature's argument count, the declared type count and the number of supplied values,
    and the two loops that fill the parameter array, the second of which gives every
    trailing (varargs) value the mode and type of the last declared slot. */
module Reconcile {
  import opened DbTypes

  /** The checks, in the order the source makes them; None when all pass. */
  function ReconcileCheck(constant: string, argTypes: seq<int>, argsCount: nat, typesCount: int, parmsCount: nat): (e: Option<Error>)
    ensures e.None? <==> argsCount == typesCount && typesCount <= parmsCount && (typesCount == 0 ==> parmsCount == 0)
    ensures argsCount != typesCount ==> e == Some(SignatureArityMismatch(constant, argTypes, argsCount, typesCount))
    ensures argsCount == typesCount == 0 < parmsCount ==> e == Some(NoArgumentsExpected(constant))
    ensures (argsCount == typesCount && 0 < typesCount && parmsCount < typesCount) ==>
              e == Some(InsufficientArguments(constant, argTypes, typesCount, parmsCount))
  {
    if argsCount != typesCount then Some(SignatureArityMismatch(constant, argTypes, argsCount, typesCount))
    else if parmsCount > 0 && typesCount == 0 then Some(NoArgumentsExpected(constant))
    else if parmsCount < typesCount then Some(InsufficientArguments(constant, argTypes, typesCount, parmsCount))
    else None
  }

  /** The declared slot that describes supplied value `i`: its own slot, or the last one. */
  function Slot(i: nat, typesCount: nat): nat
    requires 0 < typesCount
  {
    if i < typesCount then i else typesCount - 1
  }

  /** The reconciled parameters, one per supplied value. */
  function Reconciled(args: seq<string>, argTypes: seq<int>, parms: seq<Obj>): (r: seq<BoundParam>)
    requires |args| == |argTypes| <= |parms|
    requires |argTypes| == 0 ==> |parms| == 0
    requires forall k :: 0 <= k < |args| ==> args[k] != []
    ensures |r| == |parms|
    ensures forall i :: 0 <= i < |argTypes| ==> r[i] == BoundParam(args[i][0], argTypes[i], parms[i])
    ensures forall i :: |argTypes| <= i < |parms| ==>
              r[i] == BoundParam(args[|argTypes| - 1][0], argTypes[|argTypes| - 1], parms[i])
    ensures forall i :: 0 <= i < |parms| ==> r[i].value == parms[i]
  {
    seq(|parms|, i requires 0 <= i < |parms| =>
      var k := Slot(i, |argTypes|); BoundParam(args[k][0], argTypes[k], parms[i]))
  }

  /** When every argument of the signature starts with a mode character, so does every
      reconciled parameter, the trailing ones included. */
  lemma ReconciledModes(args: seq<string>, argTypes: seq<int>, parms: seq<Obj>)
    requires |args| == |argTypes| <= |parms|
    requires |argTypes| == 0 ==> |parms| == 0
    requires forall k :: 0 <= k < |args| ==> args[k] != [] && ModeOf(args[k][0]).Some?
    ensures forall i :: 0 <= i < |parms| ==> ModeOf(Reconciled(args, argTypes, parms)[i].modeChar).Some?
  {
  }

  /** Fills the parameter array as the source's two loops do, carrying the last mode and
      type out of the first loop into the second. The first loop reads the declared types
      up to the declared count; when that count exceeds the number of declared types, the
      read at index `|argTypes|` is out of bounds and is reported in `outOfBounds`. */
  method FillParams(args: seq<string>, argTypes: seq<int>, typesCount: int, parms: seq<Obj>)
    returns (parmArray: array<BoundParam>, outOfBounds: Option<nat>)
    requires typesCount == |args| <= |parms|
    requires typesCount == 0 ==> |parms| == 0
    requires forall k :: 0 <= k < |args| ==> args[k] != []
    ensures outOfBounds.Some? <==> typesCount > |argTypes|
    ensures outOfBounds.Some? ==> outOfBounds.value == |argTypes|
    ensures outOfBounds.None? ==> parmArray[..] == Reconciled(args, argTypes[..typesCount], parms)
  {
    var parmsCount := |parms|;
    parmArray := new BoundParam[parmsCount](_ => BoundParam('\0', 0, NullObj));
    var i := 0;
    var typeCode := 0;
    var mode := '>';
    while i < typesCount
      invariant 0 <= i <= typesCount && i <= |argTypes|
      invariant parmArray.Length == parmsCount
      invariant 0 < i ==> typeCode == argTypes[i - 1] && mode == args[i - 1][0]
      invariant forall k :: 0 <= k < i ==> parmArray[k] == BoundParam(args[k][0], argTypes[k], parms[k])
    {
      if i >= |argTypes| {
        return parmArray, Some(i);
      }
      typeCode := argTypes[i];
      mode := args[i][0];
      parmArray[i] := BoundParam(mode, typeCode, parms[i]);
      i := i + 1;
    }
    ghost var spec := Reconciled(args, argTypes[..typesCount], parms);
    while i < parmsCount
      invariant typesCount <= i <= parmsCount
      invariant 0 < i ==> typeCode == argTypes[typesCount - 1] && mode == args[typesCount - 1][0]
      invariant forall k :: 0 <= k < i ==> parmArray[k] == spec[k]
    {
      parmArray[i] := BoundParam(mode, typeCode, parms[i]);
      i := i + 1;
    }
    outOfBounds := None;
  }
}
