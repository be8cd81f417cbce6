/** Matching signatures to keys (script.cpp, the OP_CHECKMULTISIG loop of EvalScript, and the
    canonical-encoding tests). */
module Multisig {
  import opened CoinRecords
  import opened ScriptCodec

  predicate IsCanonicalPubKey(vchPubKey: valtype) {
    |vchPubKey| >= 33
    && if vchPubKey[0] == 0x04 then |vchPubKey| == 65
       else (vchPubKey[0] == 0x02 || vchPubKey[0] == 0x03) && |vchPubKey| == 33
  }

  predicate IsCanonicalSignature(vchSig: valtype) {
    && 9 <= |vchSig| <= 73
    && 1 <= vchSig[|vchSig| - 1] % 0x80 <= 3 // the hash type, ANYONECANPAY aside
    && vchSig[0] == 0x30 && vchSig[1] == |vchSig| - 3
    && CanonicalParts(vchSig, vchSig[3])
  }

  predicate CanonicalParts(vchSig: valtype, nLenR: nat)
    requires 9 <= |vchSig|
  {
    && 5 + nLenR < |vchSig| && nLenR + vchSig[5 + nLenR] + 7 == |vchSig|
    && CanonicalNumber(vchSig, 4, nLenR) && CanonicalNumber(vchSig, 6 + nLenR, vchSig[5 + nLenR])
  }

  /** An integer of a signature: tagged, not empty, not negative, not padded. */
  predicate CanonicalNumber(vchSig: valtype, at: nat, len: nat) {
    && 2 <= at && at + len < |vchSig| && vchSig[at - 2] == 0x02 && len != 0
    && vchSig[at] < 0x80 && !(len > 1 && vchSig[at] == 0 && vchSig[at + 1] < 0x80)
  }

  /** A tagged positive integer without padding. */
  predicate PositiveInteger(x: valtype) {
    x != [] && x[0] < 0x80 && (|x| > 1 && x[0] == 0 ==> x[1] >= 0x80)
  }

  /** A canonical signature is the sequence of two such integers and a hash type. */
  predicate Encodes(vchSig: valtype, r: valtype, s: valtype, nHashType: byte) {
    && 4 + |r| + |s| < 256 && PositiveInteger(r) && PositiveInteger(s) && 1 <= nHashType % 0x80 <= 3
    && vchSig == [0x30, 4 + |r| + |s|] + ([0x02, |r|] + r) + ([0x02, |s|] + s) + [nHashType]
  }

  lemma CanonicalEncodes(vchSig: valtype) returns (r: valtype, s: valtype)
    requires IsCanonicalSignature(vchSig)
    ensures Encodes(vchSig, r, s, vchSig[|vchSig| - 1]) && |vchSig| <= 73
  {
    var n, k := vchSig[3], |vchSig|;
    r, s := vchSig[4..4 + n], vchSig[6 + n..k - 1];
    assert vchSig == vchSig[..2] + vchSig[2..4] + r + vchSig[4 + n..6 + n] + s + vchSig[k - 1..];
  }

  lemma EncodesIsCanonical(vchSig: valtype, r: valtype, s: valtype, nHashType: byte)
    requires Encodes(vchSig, r, s, nHashType) && |vchSig| <= 73
    ensures IsCanonicalSignature(vchSig)
  {
    var n := |r|;
    assert vchSig[3] == n && vchSig[4..4 + n] == r && vchSig[5 + n] == |s| && vchSig[6 + n..6 + n + |s|] == s;
  }

  /** The strict encodings: of signatures the DER form with a hash type, of keys the two forms
      of a point. */
  lemma CanonicalIff(vchSig: valtype, vchPubKey: valtype)
    ensures IsCanonicalSignature(vchSig) <==> |vchSig| <= 73 && exists r, s, nHashType :: Encodes(vchSig, r, s, nHashType)
    ensures IsCanonicalPubKey(vchPubKey) <==>
              (|vchPubKey| == 33 && (vchPubKey[0] == 2 || vchPubKey[0] == 3)) || (|vchPubKey| == 65 && vchPubKey[0] == 4)
  {
    if IsCanonicalSignature(vchSig) {
      var r, s := CanonicalEncodes(vchSig);
    }
    if |vchSig| <= 73 && exists r, s, nHashType :: Encodes(vchSig, r, s, nHashType) {
      var r, s, nHashType :| Encodes(vchSig, r, s, nHashType);
      EncodesIsCanonical(vchSig, r, s, nHashType);
    }
  }

  /** CheckSig for one input of one transaction, counting its calls, and the hash functions by
      opcode, their results as numbers. */
  class CSignatureChecker {
    const verifies: (valtype, valtype, seq<byte>) -> bool
    const hash: (nat, valtype) -> nat
    var nCalls: nat

    constructor (verifies: (valtype, valtype, seq<byte>) -> bool, hash: (nat, valtype) -> nat)
      ensures this.verifies == verifies && this.hash == hash && nCalls == 0
    {
      this.verifies, this.hash, nCalls := verifies, hash, 0;
    }

    method CheckSig(vchSig: valtype, vchPubKey: valtype, scriptCode: seq<byte>) returns (fOk: bool)
      modifies this
      ensures nCalls == old(nCalls) + 1 && fOk == verifies(vchSig, vchPubKey, scriptCode)
    {
      nCalls := nCalls + 1;
      fOk := verifies(vchSig, vchPubKey, scriptCode);
    }

    /** Whether a signature is good for a key. */
    ghost predicate Good(fStrict: bool, vchSig: valtype, vchPubKey: valtype, scriptCode: seq<byte>) {
      (!fStrict || (IsCanonicalSignature(vchSig) && IsCanonicalPubKey(vchPubKey))) && verifies(vchSig, vchPubKey, scriptCode)
    }

    /** Encoding tests first, when they apply, then at most one CheckSig. */
    method CheckPair(fStrict: bool, vchSig: valtype, vchPubKey: valtype, scriptCode: seq<byte>) returns (fOk: bool)
      modifies this
      ensures fOk == Good(fStrict, vchSig, vchPubKey, scriptCode) && nCalls <= old(nCalls) + 1
    {
      fOk := !fStrict || (IsCanonicalSignature(vchSig) && IsCanonicalPubKey(vchPubKey));
      if fOk {
        fOk := CheckSig(vchSig, vchPubKey, scriptCode);
      }
    }

    /** Each signature goes to a key that it is good for, in order, no key twice. */
    ghost predicate Assigns(fStrict: bool, sigs: seq<valtype>, keys: seq<valtype>, scriptCode: seq<byte>, f: seq<nat>) {
      && |f| == |sigs|
      && (forall i | 0 <= i < |f| :: f[i] < |keys| && Good(fStrict, sigs[i], keys[f[i]], scriptCode))
      && (forall i, j | 0 <= i < j < |f| :: f[i] < f[j])
    }

    ghost predicate Assignable(fStrict: bool, sigs: seq<valtype>, keys: seq<valtype>, scriptCode: seq<byte>) {
      exists f: seq<nat> :: Assigns(fStrict, sigs, keys, scriptCode, f)
    }

    lemma NothingToAssign(fStrict: bool, keys: seq<valtype>, scriptCode: seq<byte>)
      ensures Assignable(fStrict, [], keys, scriptCode)
    {
      assert Assigns(fStrict, [], keys, scriptCode, []);
    }

    /** Giving the first signature the first key it is good for loses nothing. */
    lemma TakeFirstKey(fStrict: bool, sigs: seq<valtype>, keys: seq<valtype>, scriptCode: seq<byte>)
      requires sigs != [] && keys != [] && Good(fStrict, sigs[0], keys[0], scriptCode)
      ensures Assignable(fStrict, sigs, keys, scriptCode) <==> Assignable(fStrict, sigs[1..], keys[1..], scriptCode)
    {
      hide CSignatureChecker.Good;
      if Assignable(fStrict, sigs, keys, scriptCode) {
        var f: seq<nat> :| Assigns(fStrict, sigs, keys, scriptCode, f);
        forall i | 1 <= i < |f| ensures f[i] >= 1 {
          assert f[0] < f[i];
        }
        var g := seq(|f| - 1, i requires 0 <= i < |f| - 1 => f[i + 1] - 1);
        assert Assigns(fStrict, sigs[1..], keys[1..], scriptCode, g);
      }
      if Assignable(fStrict, sigs[1..], keys[1..], scriptCode) {
        var g: seq<nat> :| Assigns(fStrict, sigs[1..], keys[1..], scriptCode, g);
        var f := seq(|sigs|, i requires 0 <= i < |sigs| => if i == 0 then 0 else g[i - 1] + 1);
        forall i | 0 <= i < |f| ensures f[i] < |keys| && Good(fStrict, sigs[i], keys[f[i]], scriptCode) {
          if i > 0 { assert sigs[1..][i - 1] == sigs[i] && keys[1..][g[i - 1]] == keys[f[i]]; }
        }
        assert Assigns(fStrict, sigs, keys, scriptCode, f);
      }
    }

    /** A key that the first signature is not good for is no use to any later one either. */
    lemma DropFirstKey(fStrict: bool, sigs: seq<valtype>, keys: seq<valtype>, scriptCode: seq<byte>)
      requires sigs != [] && keys != [] && !Good(fStrict, sigs[0], keys[0], scriptCode)
      ensures Assignable(fStrict, sigs, keys, scriptCode) <==> Assignable(fStrict, sigs, keys[1..], scriptCode)
    {
      hide CSignatureChecker.Good;
      if Assignable(fStrict, sigs, keys, scriptCode) {
        var f: seq<nat> :| Assigns(fStrict, sigs, keys, scriptCode, f);
        assert f[0] != 0;
        forall i | 1 <= i < |f| ensures f[i] >= 1 {
          assert f[0] < f[i];
        }
        var g := seq(|f|, i requires 0 <= i < |f| => f[i] - 1);
        assert Assigns(fStrict, sigs, keys[1..], scriptCode, g);
      }
      if Assignable(fStrict, sigs, keys[1..], scriptCode) {
        var g: seq<nat> :| Assigns(fStrict, sigs, keys[1..], scriptCode, g);
        var f := seq(|g|, i requires 0 <= i < |g| => g[i] + 1);
        forall i | 0 <= i < |f| ensures f[i] < |keys| && Good(fStrict, sigs[i], keys[f[i]], scriptCode) {
          assert keys[1..][g[i]] == keys[f[i]];
        }
        assert Assigns(fStrict, sigs, keys, scriptCode, f);
      }
    }

    /** Both lists may be read from the other end. */
    lemma AssignableReversed(fStrict: bool, sigs: seq<valtype>, keys: seq<valtype>, scriptCode: seq<byte>)
      ensures Assignable(fStrict, Reversed(sigs), Reversed(keys), scriptCode) <==> Assignable(fStrict, sigs, keys, scriptCode)
    {
      hide CSignatureChecker.Good, CSignatureChecker.Assigns;
      if Assignable(fStrict, sigs, keys, scriptCode) {
        ReversedAssigns(fStrict, sigs, keys, scriptCode);
      }
      if Assignable(fStrict, Reversed(sigs), Reversed(keys), scriptCode) {
        ReversedAssigns(fStrict, Reversed(sigs), Reversed(keys), scriptCode);
        assert Reversed(Reversed(sigs)) == sigs && Reversed(Reversed(keys)) == keys;
      }
    }

    lemma ReversedAssigns(fStrict: bool, sigs: seq<valtype>, keys: seq<valtype>, scriptCode: seq<byte>)
      requires Assignable(fStrict, sigs, keys, scriptCode)
      ensures Assignable(fStrict, Reversed(sigs), Reversed(keys), scriptCode)
    {
      hide CSignatureChecker.Good;
      var f: seq<nat> :| Assigns(fStrict, sigs, keys, scriptCode, f);
      var g := seq(|f|, i requires 0 <= i < |f| => |keys| - 1 - f[|f| - 1 - i]);
      assert Assigns(fStrict, Reversed(sigs), Reversed(keys), scriptCode, g);
    }

    lemma {:induction false} IncreasingNeedsRoom(f: seq<nat>, k: nat)
      requires k < |f| && forall i, j | 0 <= i < j < |f| :: f[i] < f[j]
      ensures f[k] >= k
    {
      if k > 0 { IncreasingNeedsRoom(f, k - 1); }
    }

    lemma TooFewKeys(fStrict: bool, sigs: seq<valtype>, keys: seq<valtype>, scriptCode: seq<byte>)
      requires |sigs| > |keys|
      ensures !Assignable(fStrict, sigs, keys, scriptCode)
    {
      if Assignable(fStrict, sigs, keys, scriptCode) {
        var f: seq<nat> :| Assigns(fStrict, sigs, keys, scriptCode, f);
        IncreasingNeedsRoom(f, |sigs| - 1);
      }
    }

    /** The matching loop on the stack: signatures from position isig below the top, keys from
        ikey. It succeeds exactly when the signatures can be assigned to keys in order, and
        makes at most one call per key. */
    method MatchSignatures(stack: seq<valtype>, isigStart: nat, nSigsStart: nat, ikeyStart: nat, nKeysStart: nat, scriptCode: seq<byte>, fStrict: bool)
      returns (fSuccess: bool)
      requires 1 <= ikeyStart && ikeyStart + nKeysStart <= |stack| + 1 && 1 <= isigStart && isigStart + nSigsStart <= |stack| + 1
      requires nSigsStart <= nKeysStart
      modifies this
      ensures fSuccess <==> Assignable(fStrict, Column(stack, isigStart, nSigsStart), Column(stack, ikeyStart, nKeysStart), scriptCode)
      ensures nCalls <= old(nCalls) + nKeysStart
    {
      var isig, nSigsCount, ikey, nKeysCount := isigStart, nSigsStart, ikeyStart, nKeysStart;
      ghost var sigs, keys := Column(stack, isig, nSigsCount), Column(stack, ikey, nKeysCount);
      fSuccess := true;
      hide CSignatureChecker.Good, CSignatureChecker.Assignable;
      while fSuccess && nSigsCount > 0
        invariant nSigsCount <= nKeysCount || !fSuccess
        invariant isig + nSigsCount == isigStart + nSigsStart && ikey + nKeysCount == ikeyStart + nKeysStart
        invariant sigs == Column(stack, isig, nSigsCount) && keys == Column(stack, ikey, nKeysCount)
        invariant 1 <= isig && 1 <= ikey && nCalls + nKeysCount <= old(nCalls) + nKeysStart
        invariant Assignable(fStrict, Column(stack, isigStart, nSigsStart), Column(stack, ikeyStart, nKeysStart), scriptCode) <==>
                    Assignable(fStrict, sigs, keys, scriptCode)
        invariant !fSuccess ==> |sigs| > |keys|
        decreases nKeysCount
      {
        var vchSig := stack[|stack| - isig];
        var vchPubKey := stack[|stack| - ikey];
        assert sigs[0] == vchSig && keys[0] == vchPubKey;
        var fOk := CheckPair(fStrict, vchSig, vchPubKey, scriptCode);
        if fOk {
          TakeFirstKey(fStrict, sigs, keys, scriptCode);
          isig := isig + 1;
          nSigsCount := nSigsCount - 1;
          sigs := sigs[1..];
        } else {
          DropFirstKey(fStrict, sigs, keys, scriptCode);
        }
        ikey := ikey + 1;
        nKeysCount := nKeysCount - 1;
        keys := keys[1..];
        if nSigsCount > nKeysCount {
          fSuccess := false;
        }
      }
      if fSuccess {
        NothingToAssign(fStrict, keys, scriptCode);
      } else {
        TooFewKeys(fStrict, sigs, keys, scriptCode);
      }
    }
  }

  ghost function Reversed(s: seq<valtype>): seq<valtype> {
    seq(|s|, i requires 0 <= i < |s| => s[|s| - 1 - i])
  }

  /** Stack entries from a position below the top, going down. */
  ghost function Column(stack: seq<valtype>, start: nat, n: nat): (s: seq<valtype>)
    requires 1 <= start && start + n <= |stack| + 1
    ensures |s| == n
  {
    seq(n, k requires 0 <= k < n => stack[|stack| - start - k])
  }
}
