/**
 backend/authz/policy.go (prefix table, DecodeClaim) and its signing side in
 src/lib/authz/permission-claim.ts: permissions travel in a token as a bitset over the
 permission catalogue. The catalogue only ever grows at its end, and each of its prefixes has
 a version, so a claim signed against an older catalogue still names what it named.
 */
module PermissionClaim {
  import opened Strings
  import opened Base64Url
  import opened StableSort

  const WILDCARD := "*:*:*"

  /** The claim in a token: catalogue version, base64url bitset, permissions outside the catalogue, wildcard flag. */
  datatype Claim = Claim(v: string, b: string, x: seq<string>, w: int)

  /** What the token holds under that name. */
  datatype RawClaim = Absent | Malformed | Parsed(claim: Claim)

  // ---- Versions ----

  /** What a version is made with: fnv1a in the program (module Fnv), any digest here. */
  type Digest = string -> string

  function Joined(catalogue: seq<string>): string {
    if catalogue == [] then ""
    else if |catalogue| == 1 then catalogue[0]
    else Joined(catalogue[..|catalogue| - 1]) + "|" + catalogue[|catalogue| - 1]
  }

  function Version(fnv: Digest, catalogue: seq<string>): string {
    fnv(Joined(catalogue))
  }

  /**
   A version is made of the entries with bars between them: as long as they hold no bar, the text
   gives them back, so two catalogues share a version only through a collision of the digest.
   */
  lemma {:induction false} VersionTextGivesBackTheCatalogue(catalogue: seq<string>)
    requires catalogue != [] && Free(catalogue, '|')
    ensures Split(Joined(catalogue), '|') == catalogue
  {
    JoinedWithBars(catalogue);
    SplitJoined(catalogue, '|');
  }

  lemma {:induction false} JoinedWithBars(catalogue: seq<string>)
    requires catalogue != []
    ensures Joined(catalogue) == Strings.Joined(catalogue, '|')
  {
    var n := |catalogue| - 1;
    if n > 0 {
      JoinedWithBars(catalogue[..n]);
      JoinedConcat(catalogue[..n], [catalogue[n]], '|');
      assert catalogue == catalogue[..n] + [catalogue[n]];
    }
  }

  /** The longest prefix of length at most `n` with this version; 0 when there is none. */
  function LongestSigned(fnv: Digest, catalogue: seq<string>, v: string, n: nat): (r: nat)
    requires n <= |catalogue|
    ensures r <= n
    ensures r != 0 ==> Version(fnv, catalogue[..r]) == v
    ensures forall m | r < m <= n :: Version(fnv, catalogue[..m]) != v
  {
    if n == 0 then 0 else if Version(fnv, catalogue[..n]) == v then n else LongestSigned(fnv, catalogue, v, n - 1)
  }

  /** How much of the catalogue a claim of version `v` covers. */
  function SignedLength(fnv: Digest, catalogue: seq<string>, v: string): nat {
    LongestSigned(fnv, catalogue, v, |catalogue|)
  }

  ghost predicate IsPrefixTable(fnv: Digest, table: map<string, nat>, catalogue: seq<string>) {
    forall v :: (v in table <==> SignedLength(fnv, catalogue, v) != 0)
      && (v in table ==> table[v] == SignedLength(fnv, catalogue, v))
  }

  lemma {:induction false} LongestSignedInPrefix(fnv: Digest, catalogue: seq<string>, appended: seq<string>,
      v: string, n: nat)
    requires n <= |catalogue|
    ensures LongestSigned(fnv, catalogue + appended, v, n) == LongestSigned(fnv, catalogue, v, n)
  {
    assert (catalogue + appended)[..n] == catalogue[..n];
    if n == 0 {
    } else {
      LongestSignedInPrefix(fnv, catalogue, appended, v, n - 1);
    }
  }

  lemma SignedLengthGrows(fnv: Digest, catalogue: seq<string>, key: string, v: string)
    ensures SignedLength(fnv, catalogue + [key], v)
         == if Version(fnv, catalogue + [key]) == v then |catalogue| + 1 else SignedLength(fnv, catalogue, v)
  {
    LongestSignedInPrefix(fnv, catalogue, [key], v, |catalogue|);
    assert (catalogue + [key])[..|catalogue| + 1] == catalogue + [key];
  }

  /** The loop of Parse that fills the prefix table. A later prefix with the same version replaces an earlier one. */
  method BuildPrefixTable(fnv: Digest, catalogue: seq<string>) returns (prefixes: map<string, nat>)
    ensures IsPrefixTable(fnv, prefixes, catalogue)
  {
    prefixes := map[];
    var joined := "";
    var i := 0;
    while i < |catalogue|
      invariant 0 <= i <= |catalogue|
      invariant joined == Joined(catalogue[..i])
      invariant IsPrefixTable(fnv, prefixes, catalogue[..i])
    {
      if i == 0 {
        joined := catalogue[0];
      } else {
        joined := joined + "|" + catalogue[i];
      }
      assert catalogue[..i + 1] == catalogue[..i] + [catalogue[i]];
      assert catalogue[..i + 1][..i] == catalogue[..i];
      var version := fnv(joined);
      forall v { SignedLengthGrows(fnv, catalogue[..i], catalogue[i], v); }
      prefixes := prefixes[version := i + 1];
      i := i + 1;
    }
    assert catalogue[..|catalogue|] == catalogue;
  }

  // ---- Decoding ----

  /** bits[i>>3] & (1 << (i & 7)); bits are stored most significant first. */
  predicate BitAt(bytes: seq<Byte>, i: nat) {
    i / 8 < |bytes| && bytes[i / 8][7 - i % 8]
  }

  /** The catalogue entries whose bits are set, in catalogue order. */
  function Selected(catalogue: seq<string>, bytes: seq<Byte>): seq<string> {
    if catalogue == [] then []
    else
      var n := |catalogue| - 1;
      Selected(catalogue[..n], bytes) + (if BitAt(bytes, n) then [catalogue[n]] else [])
  }

  function Decoded(fnv: Digest, catalogue: seq<string>, raw: RawClaim): Option<seq<string>> {
    if !raw.Parsed? then None
    else
      var n := SignedLength(fnv, catalogue, raw.claim.v);
      if n == 0 then None
      else match Decode(TrimRight(raw.claim.b, '='))
        case None => None
        case Some(bytes) =>
          var listed := Selected(catalogue[..n], bytes) + raw.claim.x;
          Some(if raw.claim.w == 1 then listed + [WILDCARD] else listed)
  }

  method Select(catalogue: seq<string>, length: nat, bits: seq<Byte>) returns (perms: seq<string>)
    requires length <= |catalogue|
    ensures perms == Selected(catalogue[..length], bits)
  {
    perms := [];
    var i := 0;
    while i < length
      invariant 0 <= i <= length
      invariant perms == Selected(catalogue[..i], bits)
    {
      assert catalogue[..i + 1][..i] == catalogue[..i];
      if i / 8 < |bits| && bits[i / 8][7 - i % 8] {
        perms := perms + [catalogue[i]];
      }
      i := i + 1;
    }
  }

  method DecodeClaim(fnv: Digest, catalogue: seq<string>, prefixes: map<string, nat>, raw: RawClaim)
    returns (out: Option<seq<string>>)
    requires IsPrefixTable(fnv, prefixes, catalogue)
    ensures out == Decoded(fnv, catalogue, raw)
  {
    if !raw.Parsed? {
      return None;
    }
    if raw.claim.v !in prefixes {
      return None;
    }
    var length := prefixes[raw.claim.v];
    var bits := Decode(TrimRight(raw.claim.b, '='));
    if bits.None? {
      return None;
    }
    var perms := Select(catalogue, length, bits.value);
    perms := perms + raw.claim.x;
    if raw.claim.w == 1 {
      perms := perms + [WILDCARD];
    }
    out := Some(perms);
  }

  lemma {:induction false} SelectedMeaning(catalogue: seq<string>, bytes: seq<Byte>, key: string)
    ensures key in Selected(catalogue, bytes) <==>
      exists i | 0 <= i < |catalogue| :: catalogue[i] == key && BitAt(bytes, i)
  {
    if catalogue == [] {
    } else {
      var n := |catalogue| - 1;
      SelectedMeaning(catalogue[..n], bytes, key);
      assert forall i | 0 <= i < n :: catalogue[..n][i] == catalogue[i];
    }
  }

  /**
   When a token's claim is taken at all: it is there and well formed, its version is that of some
   prefix of the catalogue, and its bits can be read, less any padding.
   */
  lemma DecodesExactly(fnv: Digest, catalogue: seq<string>, raw: RawClaim)
    ensures Decoded(fnv, catalogue, raw).Some? <==>
      && raw.Parsed?
      && (exists n: nat | 0 < n <= |catalogue| :: Version(fnv, catalogue[..n]) == raw.claim.v)
      && Decode(TrimRight(raw.claim.b, '=')).Some?
  {
    if raw.Parsed? {
      var n := SignedLength(fnv, catalogue, raw.claim.v);
      assert n != 0 ==> Version(fnv, catalogue[..n]) == raw.claim.v;
    }
  }

  /** What a claim grants: the set bits below the signed length, the extras and the wildcard, and nothing else. */
  lemma DecodedMeaning(fnv: Digest, catalogue: seq<string>, claim: Claim, key: string)
    requires Decoded(fnv, catalogue, Parsed(claim)).Some?
    ensures var bytes := Decode(TrimRight(claim.b, '=')).value;
      key in Decoded(fnv, catalogue, Parsed(claim)).value <==>
        || (exists i | 0 <= i < SignedLength(fnv, catalogue, claim.v) :: catalogue[i] == key && BitAt(bytes, i))
        || key in claim.x
        || (claim.w == 1 && key == WILDCARD)
  {
    var n := SignedLength(fnv, catalogue, claim.v);
    var bytes := Decode(TrimRight(claim.b, '=')).value;
    SelectedMeaning(catalogue[..n], bytes, key);
    assert forall i | 0 <= i < n :: catalogue[..n][i] == catalogue[i];
  }

  // ---- Claims survive catalogue growth ----

  /** No appended prefix happens to hash to a version already in use. */
  predicate NoCollision(fnv: Digest, catalogue: seq<string>, appended: seq<string>, v: string) {
    forall n | |catalogue| < n <= |catalogue| + |appended| :: Version(fnv, (catalogue + appended)[..n]) != v
  }

  /**
   Growth changes which entries a known claim covers exactly when an appended prefix collides
   with the claim's version; otherwise the covered entries are the very same.
   */
  lemma GrowthKeepsSignedLength(fnv: Digest, catalogue: seq<string>, appended: seq<string>, v: string)
    requires SignedLength(fnv, catalogue, v) != 0
    ensures SignedLength(fnv, catalogue + appended, v) == SignedLength(fnv, catalogue, v) <==>
      NoCollision(fnv, catalogue, appended, v)
    ensures SignedLength(fnv, catalogue, v) <= SignedLength(fnv, catalogue + appended, v)
  {
    var n := SignedLength(fnv, catalogue, v);
    var grown := catalogue + appended;
    assert forall m | 0 <= m <= |catalogue| :: grown[..m] == catalogue[..m];
  }

  /** Claims survive catalogue growth, whole: same permissions, in the same order. */
  lemma ClaimsSurviveGrowth(fnv: Digest, catalogue: seq<string>, appended: seq<string>, raw: RawClaim)
    requires raw.Parsed? ==> NoCollision(fnv, catalogue, appended, raw.claim.v)
    ensures Decoded(fnv, catalogue + appended, raw) == Decoded(fnv, catalogue, raw)
  {
    if raw.Parsed? {
      var v := raw.claim.v;
      var grown := catalogue + appended;
      assert forall m | 0 <= m <= |catalogue| :: grown[..m] == catalogue[..m];
      if SignedLength(fnv, catalogue, v) != 0 {
        GrowthKeepsSignedLength(fnv, catalogue, appended, v);
      }
    }
  }

  /**
   No bit of an appended entry is ever granted: an entry new to the catalogue can only come from the
   extras or the wildcard.
   */
  lemma AppendedEntriesAreNotGranted(fnv: Digest, catalogue: seq<string>, appended: seq<string>, claim: Claim,
      key: string)
    requires SignedLength(fnv, catalogue, claim.v) != 0 && NoCollision(fnv, catalogue, appended, claim.v)
    requires Decoded(fnv, catalogue + appended, Parsed(claim)).Some?
    requires key !in catalogue && key !in claim.x && key != WILDCARD
    ensures key !in Decoded(fnv, catalogue + appended, Parsed(claim)).value
  {
    ClaimsSurviveGrowth(fnv, catalogue, appended, Parsed(claim));
    DecodedMeaning(fnv, catalogue, claim, key);
  }

  // ---- Signing ----

  /** INDEX of the signing side: the last position of the key. */
  function IndexOfKey(catalogue: seq<string>, key: string): (i: Option<nat>)
    ensures i.Some? ==> i.value < |catalogue| && catalogue[i.value] == key
    ensures i.None? <==> key !in catalogue
  {
    if catalogue == [] then None
    else if catalogue[|catalogue| - 1] == key then Some(|catalogue| - 1)
    else
      assert catalogue == catalogue[..|catalogue| - 1] + [catalogue[|catalogue| - 1]];
      IndexOfKey(catalogue[..|catalogue| - 1], key)
  }

  function SetBit(bytes: seq<Byte>, i: nat): seq<Byte>
    requires i / 8 < |bytes|
  {
    bytes[i / 8 := bytes[i / 8][7 - i % 8 := true]]
  }

  lemma SetBitSetsOne(bytes: seq<Byte>, i: nat, j: nat)
    requires i / 8 < |bytes|
    ensures BitAt(SetBit(bytes, i), j) <==> i == j || BitAt(bytes, j)
  {
    assert i / 8 == j / 8 && i % 8 == j % 8 ==> i == j;
  }

  /** Array.prototype.sort on strings. */
  predicate Before(a: string, b: string) {
    if b == "" then false
    else if a == "" then true
    else a[0] < b[0] || (a[0] == b[0] && Before(a[1..], b[1..]))
  }

  /** The claim stands for these permissions. */
  ghost predicate Signs(fnv: Digest, catalogue: seq<string>, perms: seq<string>, claim: Claim) {
    && claim.v == Version(fnv, catalogue)
    && (exists bytes: seq<Byte> :: claim.b == Encode(bytes)
          && forall i | 0 <= i < |catalogue| :: BitAt(bytes, i) <==> InBitset(catalogue, perms, i))
    && (forall key :: key in claim.x <==> key in perms && key != WILDCARD && key !in catalogue)
    && (claim.w == 1 <==> WILDCARD in perms)
  }

  ghost predicate InBitset(catalogue: seq<string>, perms: seq<string>, i: nat)
    requires i < |catalogue|
  {
    catalogue[i] != WILDCARD && catalogue[i] in perms && IndexOfKey(catalogue, catalogue[i]) == Some(i)
  }

  method EncodeClaim(fnv: Digest, catalogue: seq<string>, perms: seq<string>) returns (claim: Claim)
    ensures Signs(fnv, catalogue, perms, claim)
  {
    var bits: seq<Byte> := seq((|catalogue| + 7) / 8, _ => Zeros(8));
    var extra: seq<string> := [];
    var wildcard := false;
    var k := 0;
    while k < |perms|
      invariant 0 <= k <= |perms|
      invariant |bits| == (|catalogue| + 7) / 8
      invariant forall i | 0 <= i < |catalogue| :: BitAt(bits, i) <==> InBitset(catalogue, perms[..k], i)
      invariant forall key :: key in extra <==> key in perms[..k] && key != WILDCARD && key !in catalogue
      invariant wildcard <==> WILDCARD in perms[..k]
    {
      var p := perms[k];
      assert perms[..k + 1] == perms[..k] + [p];
      if p == WILDCARD {
        wildcard := true;
      } else {
        var i := IndexOfKey(catalogue, p);
        if i.None? {
          if p !in extra {
            extra := extra + [p];
          }
        } else {
          forall j { SetBitSetsOne(bits, i.value, j); }
          bits := SetBit(bits, i.value);
        }
      }
      k := k + 1;
    }
    assert perms[..|perms|] == perms;
    var version := fnv(Joined(catalogue));
    forall key { InSort(extra, Before, key); }
    claim := Claim(version, Encode(bits), Sort(extra, Before), if wildcard then 1 else 0);
  }

  /**
   Round trip: what the signer puts in, the backend reads out, as a set, for every list of
   permissions and every catalogue. The signer's own version is always the longest match.
   */
  lemma SignedClaimsDecode(fnv: Digest, catalogue: seq<string>, perms: seq<string>, claim: Claim, key: string)
    requires catalogue != [] && Signs(fnv, catalogue, perms, claim)
    ensures Decoded(fnv, catalogue, Parsed(claim)).Some?
    ensures key in Decoded(fnv, catalogue, Parsed(claim)).value <==> key in perms
  {
    var bytes: seq<Byte> :| claim.b == Encode(bytes)
      && forall i | 0 <= i < |catalogue| :: BitAt(bytes, i) <==> InBitset(catalogue, perms, i);
    RoundTrip(bytes);
    assert catalogue[..|catalogue|] == catalogue;
    DecodedMeaning(fnv, catalogue, claim, key);
    if key in perms && key != WILDCARD && key in catalogue {
      var i := IndexOfKey(catalogue, key).value;
      assert InBitset(catalogue, perms, i);
    }
  }

  /** Signed today, read after the catalogue has grown: still the same permissions. */
  lemma SignedClaimsOutliveGrowth(fnv: Digest, catalogue: seq<string>, appended: seq<string>, perms: seq<string>,
      claim: Claim, key: string)
    requires catalogue != [] && Signs(fnv, catalogue, perms, claim) && NoCollision(fnv, catalogue, appended, claim.v)
    ensures Decoded(fnv, catalogue + appended, Parsed(claim)).Some?
    ensures key in Decoded(fnv, catalogue + appended, Parsed(claim)).value <==> key in perms
  {
    SignedClaimsDecode(fnv, catalogue, perms, claim, key);
    ClaimsSurviveGrowth(fnv, catalogue, appended, Parsed(claim));
  }
}
