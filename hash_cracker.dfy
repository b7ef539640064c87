/**
 * The hash cracker: the format check a hash string must pass before cracking
 * starts, and the dictionary search, which hashes every non-blank stripped
 * line of the wordlist with the chosen algorithm and stops at the first whose
 * hex digest equals the target case-insensitively.  The digest algorithms
 * themselves are an uninterpreted parameter.
 */
module HashCracker {

  import opened Wrappers
  import opened Strings
  import PyInt

  /** The keys of `HASH_TYPES`. */
  const HashTypes: seq<string> := ["md5", "sha1", "sha256", "sha512"]

  /** `expected_lengths.get(hash_type, 0)`: the key is looked up as given, without lower-casing. */
  function ExpectedLength(hashType: string): (n: nat)
    ensures n == 0 <==> hashType !in HashTypes
    ensures n > 0 ==> n % 8 == 0 && 32 <= n <= 128
  {
    if hashType == "md5" then 32
    else if hashType == "sha1" then 40
    else if hashType == "sha256" then 64
    else if hashType == "sha512" then 128
    else 0
  }

  /** `validate_hash`: the length must be the expected one and `int(hash_string, 16)` must not raise. */
  function ValidateHash(hash: string, hashType: string): (ok: bool)
    ensures ok ==> hashType in HashTypes && 32 <= |hash| <= 128
  {
    PyInt.EmptyNotInt(16);
    |hash| == ExpectedLength(hashType) && PyInt.ParseInt(hash, 16).Some?
  }

  /** A string of the wrong length is rejected, whatever it holds. */
  lemma WrongLengthRejected(hash: string, hashType: string)
    requires |hash| != ExpectedLength(hashType)
    ensures !ValidateHash(hash, hashType)
  {
  }

  /**
   * An unknown type (including a known one in other letter case, since the
   * length table is not looked up lower-cased) rejects every string: only
   * the empty string has length 0, and `int('', 16)` raises.
   */
  lemma {:induction false} UnknownTypeRejected(hash: string, hashType: string)
    requires hashType !in HashTypes
    ensures !ValidateHash(hash, hashType)
  {
    if |hash| == 0 {
      assert hash == "";
      PyInt.EmptyNotInt(16);
    }
  }

  /** A string of the expected length made only of hex digits is accepted. */
  lemma {:induction false} HexDigestAccepted(hash: string, hashType: string)
    requires hashType in HashTypes && |hash| == ExpectedLength(hashType)
    requires HexDigits(hash)
    ensures ValidateHash(hash, hashType)
  {
    PyInt.HexDigitsParse(hash);
  }

  /**
   * `int(s, 16)` accepts a `0x` prefix, so 30 hex digits behind `0x` pass
   * as an MD5 hash although they are not a hex digest.
   */
  lemma {:induction false} PrefixedMd5Accepted(h: string)
    requires |h| == 30 && HexDigits(h)
    ensures ValidateHash("0x" + h, "md5")
    ensures !IsHexDigest("0x" + h, "md5")
  {
    PyInt.PrefixedHexParses(h);
    assert ("0x" + h)[1] == 'x';
  }

  /** Every character is a hex digit. */
  predicate HexDigits(s: string) {
    forall k :: 0 <= k < |s| ==> PyInt.IsHexDigit(s[k])
  }

  /** The check as intended: exactly the expected number of hex digits, nothing else. */
  function IsHexDigest(hash: string, hashType: string): (ok: bool)
    ensures ok ==> hashType in HashTypes && |hash| == ExpectedLength(hashType)
    ensures ok ==> PyInt.ParseInt(hash, 16) == Some(PyInt.DigitsValue(hash, 16) as int)
    ensures ok ==> ValidateHash(hash, hashType)
  {
    if hashType in HashTypes && |hash| == ExpectedLength(hashType) && HexDigits(hash) then
      PyInt.HexDigitsParse(hash);
      true
    else
      false
  }

  /** The digest oracle: the hex digest of a password under an algorithm, or `None` when hashing raises. */
  type Digest = (string, string) -> Option<string>

  /** `password` hashes, under `algorithm`, to `target` compared case-insensitively. */
  predicate Cracks(digest: Digest, algorithm: string, target: string, password: string) {
    match digest(algorithm, password)
    case None => false
    case Some(d) => Lower(d) == Lower(target)
  }

  /** Line `line` of the wordlist is a hit: not blank after stripping, and its stripped text cracks the target. */
  predicate HitAt(lines: seq<string>, digest: Digest, algorithm: string, target: string, line: nat)
    requires line < |lines|
  {
    var p := Strip(lines[line]);
    p != [] && Cracks(digest, algorithm, target, p)
  }

  /** Line `j` is a hit and no line from `k` up to it is. */
  predicate FirstHitFrom(lines: seq<string>, digest: Digest, algorithm: string, target: string, k: nat, j: nat) {
    && k <= j < |lines|
    && HitAt(lines, digest, algorithm, target, j)
    && forall i :: k <= i < j ==> !HitAt(lines, digest, algorithm, target, i)
  }

  /** The stripped text of the first hit from line `k` on. */
  function FirstCrack(lines: seq<string>, digest: Digest, algorithm: string, target: string, k: nat): (r: Option<string>)
    ensures r.Some? ==> r.value != [] && Cracks(digest, algorithm, target, r.value)
    ensures r.None? <==> forall j :: k <= j < |lines| ==> !HitAt(lines, digest, algorithm, target, j)
    decreases |lines| - k
  {
    if k >= |lines| then None
    else if HitAt(lines, digest, algorithm, target, k) then Some(Strip(lines[k]))
    else FirstCrack(lines, digest, algorithm, target, k + 1)
  }

  /** A result from line `k` on is the stripped text of the first hit from there. */
  lemma {:induction false} FirstCrackIsFirst(lines: seq<string>, digest: Digest, algorithm: string, target: string, k: nat)
    requires FirstCrack(lines, digest, algorithm, target, k).Some?
    ensures exists j: nat ::
      FirstHitFrom(lines, digest, algorithm, target, k, j) && Strip(lines[j]) == FirstCrack(lines, digest, algorithm, target, k).value
    decreases |lines| - k
  {
    if !HitAt(lines, digest, algorithm, target, k) {
      FirstCrackIsFirst(lines, digest, algorithm, target, k + 1);
      var j: nat :| FirstHitFrom(lines, digest, algorithm, target, k + 1, j)
        && Strip(lines[j]) == FirstCrack(lines, digest, algorithm, target, k + 1).value;
      assert FirstHitFrom(lines, digest, algorithm, target, k, j);
    } else {
      assert FirstHitFrom(lines, digest, algorithm, target, k, k);
    }
  }

  /**
   * `crack_hash`: `None` for an unsupported type (before the file is
   * touched) and for a wordlist that cannot be read (`None`); otherwise the
   * first hit in file order.
   */
  function Crack(wordlist: Option<seq<string>>, target: string, hashType: string, digest: Digest): (r: Option<string>)
    ensures r.Some? ==> Lower(hashType) in HashTypes && wordlist.Some?
    ensures r.Some? ==> r.value != [] && Cracks(digest, Lower(hashType), target, r.value)
  {
    var algorithm := Lower(hashType);
    if algorithm !in HashTypes || wordlist.None? then None
    else FirstCrack(wordlist.value, digest, algorithm, target, 0)
  }

  /** The type is matched in any letter case, and so is the target hash. */
  lemma CrackIgnoresCase(wordlist: Option<seq<string>>, target: string, hashType: string, digest: Digest)
    ensures Crack(wordlist, target, hashType, digest) == Crack(wordlist, Lower(target), Lower(hashType), digest)
  {
    LowerIdempotent(hashType);
    LowerIdempotent(target);
    if Lower(hashType) in HashTypes && wordlist.Some? {
      FirstCrackSameTarget(wordlist.value, digest, Lower(hashType), target, Lower(target), 0);
    }
  }

  lemma {:induction false} FirstCrackSameTarget(lines: seq<string>, digest: Digest, algorithm: string, t1: string, t2: string, k: nat)
    requires Lower(t1) == Lower(t2)
    ensures FirstCrack(lines, digest, algorithm, t1, k) == FirstCrack(lines, digest, algorithm, t2, k)
    decreases |lines| - k
  {
    if k < |lines| {
      FirstCrackSameTarget(lines, digest, algorithm, t1, t2, k + 1);
    }
  }

  /** An unsupported type gives no password, whatever the wordlist. */
  lemma UnsupportedTypeFindsNothing(wordlist: Option<seq<string>>, target: string, hashType: string, digest: Digest)
    requires Lower(hashType) !in HashTypes
    ensures Crack(wordlist, target, hashType, digest) == None
  {
  }

  /** A returned password is non-blank, hashes to the target, and is the stripped text of the first line that does. */
  lemma CrackFound(lines: seq<string>, target: string, hashType: string, digest: Digest, p: string)
    requires Crack(Some(lines), target, hashType, digest) == Some(p)
    ensures p != [] && Cracks(digest, Lower(hashType), target, p)
    ensures exists j: nat :: FirstHitFrom(lines, digest, Lower(hashType), target, 0, j) && Strip(lines[j]) == p
  {
    FirstCrackIsFirst(lines, digest, Lower(hashType), target, 0);
  }

  /** Without a hit in the wordlist, nothing is returned. */
  lemma NoHitNothingFound(lines: seq<string>, target: string, hashType: string, digest: Digest)
    requires forall j :: 0 <= j < |lines| ==> !HitAt(lines, digest, Lower(hashType), target, j)
    ensures Crack(Some(lines), target, hashType, digest) == None
  {
  }

  /** `crack_hash` itself: the wordlist loop with its skip and its early return. */
  method CrackHash(wordlist: Option<seq<string>>, target: string, hashType: string, digest: Digest) returns (r: Option<string>)
    ensures r == Crack(wordlist, target, hashType, digest)
  {
    var algorithm := Lower(hashType);
    if algorithm !in HashTypes {
      return None;
    }
    if wordlist.None? {
      return None;
    }
    var lines := wordlist.value;
    var i := 0;
    while i < |lines|
      invariant 0 <= i <= |lines|
      invariant FirstCrack(lines, digest, algorithm, target, i) == FirstCrack(lines, digest, algorithm, target, 0)
    {
      var password := Strip(lines[i]);
      if password == [] {
        i := i + 1;
        continue;
      }
      var hashed := digest(algorithm, password);
      if hashed.Some? && Lower(hashed.value) == Lower(target) {
        return Some(password);
      }
      i := i + 1;
    }
    return None;
  }
}
