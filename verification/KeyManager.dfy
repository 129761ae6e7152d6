/** The bounded first-in first-out cache of public keys. */
module KeyManager {

  datatype KeyEntry = Empty | KeyEntry(key: string, fileName: string)

  /** The last `n` elements, or all of them if there are fewer. */
  function LastUpTo<T>(s: seq<T>, n: nat): seq<T> {
    if |s| <= n then s else s[|s| - n..]
  }

  /** One more element pushes out the oldest once there are `n`. */
  lemma LastUpToSnoc<T>(s: seq<T>, x: T, n: nat)
    requires n > 0
    ensures LastUpTo(s + [x], n) == (if |s| < n then LastUpTo(s, n) else LastUpTo(s, n)[1..]) + [x]
  {
  }

  class KeyManager {
    const maxLength: nat
    var keys: seq<KeyEntry>
    var currentLength: nat
    /** The key files removed from disk, in order. */
    var removed: seq<string>

    /** Every key successfully added so far. */
    ghost var added: seq<KeyEntry>

    ghost predicate Valid()
      reads this
    {
      && maxLength > 0 && |keys| == maxLength && currentLength <= maxLength
      && (forall i :: 0 <= i < |added| ==> added[i].KeyEntry?)
      && currentLength == |LastUpTo(added, maxLength)| && keys[..currentLength] == LastUpTo(added, maxLength)
      && |removed| == |added| - currentLength
      && forall i :: 0 <= i < |removed| ==> removed[i] == added[i].fileName
    }

    constructor (maxLength: nat)
      requires maxLength > 0
      ensures Valid() && added == [] && this.maxLength == maxLength
    {
      this.maxLength := maxLength;
      keys := seq(maxLength, _ => Empty);
      currentLength, removed, added := 0, [], [];
    }

    /** `parsed` is the key read from the named file, or Empty if it cannot be read or is not a key. */
    method AddKey(publicKeyName: string, parsed: KeyEntry) returns (ok: bool)
      requires Valid() && (parsed.KeyEntry? ==> parsed.fileName == publicKeyName)
      modifies this
      ensures Valid() && ok == parsed.KeyEntry?
      ensures added == if ok then old(added) + [parsed] else old(added)
      ensures !ok ==> keys == old(keys) && currentLength == old(currentLength) && removed == old(removed)
      ensures old(removed) <= removed
    {
      if parsed.Empty? {
        return false;
      }
      LastUpToSnoc(added, parsed, maxLength);
      if currentLength == maxLength {
        assert keys[..currentLength] == keys;
        assert keys[0] == added[|added| - maxLength];
        removed := removed + [keys[0].fileName];
        keys := keys[1..];
        keys := keys + [parsed];
      } else {
        keys := keys[currentLength := parsed];
        currentLength := currentLength + 1;
        assert keys[..currentLength] == LastUpTo(added, maxLength) + [parsed];
      }
      added := added + [parsed];
      return true;
    }

    /** The most recently added keys, oldest first; what is gone has been removed from disk in the order it came. */
    method GetKeyList() returns (list: seq<string>)
      requires Valid()
      ensures |list| == if |added| < maxLength then |added| else maxLength
      ensures forall i :: 0 <= i < |list| ==>
                added[|added| - |list| + i].KeyEntry? && list[i] == added[|added| - |list| + i].key
      ensures forall i :: 0 <= i < |removed| ==> removed[i] == added[i].fileName
      ensures |removed| + |list| == |added|
    {
      list := [];
      var i := 0;
      while i < currentLength
        invariant 0 <= i <= currentLength && |list| == i
        invariant forall j :: 0 <= j < i ==> list[j] == LastUpTo(added, maxLength)[j].key
      {
        assert keys[i] == keys[..currentLength][i];
        list := list + [keys[i].key];
        i := i + 1;
      }
    }
  }
}
