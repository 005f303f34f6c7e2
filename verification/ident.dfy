/**
 * The identifier generator of internal/service/id.go: the first six hex
 * characters of the title's SHA-256 digest, then a random number below one
 * hundred in decimal, then the last six hex characters.
 *
 * SHA-256 itself is not modelled: the hash is a parameter mapping a title
 * to some 32-byte digest, and the random number is a parameter.
 */
module Ident {
  import opened Strings
  import opened Encoding

  type Digest = s: seq<byte> | |s| == 32 witness seq(32, i => 0 as byte)

  /** GenerateID: the id of a movie named `movieName` when the random source
      yields `randomNum`. It splits into a 6-character part fixed by the first
      three digest bytes, the salt in decimal, and a 6-character part fixed by
      the last three digest bytes. */
  function GenerateID(sha256: string -> Digest, movieName: string, randomNum: nat): (id: string)
    requires randomNum < 100
    ensures |id| == 12 + |Itoa(randomNum)| && 13 <= |id| <= 14
    ensures id[..6] == HexEncode(sha256(movieName)[..3])
    ensures id[|id| - 6..] == HexEncode(sha256(movieName)[29..])
    ensures id[6..|id| - 6] == Itoa(randomNum)
    ensures AllLowerHex(id)
  {
    var hashHex := HexEncode(sha256(movieName));
    var first6chars := hashHex[..6];
    var last6chars := hashHex[|hashHex| - 6..];
    HexEncodeIsLowerHex(sha256(movieName));
    HexEncodePrefix(sha256(movieName), 3);
    HexEncodeSuffix(sha256(movieName), 3);
    ItoaLengthBelowHundred(randomNum);
    var id := first6chars + Itoa(randomNum) + last6chars;
    assert id[6..|id| - 6] == Itoa(randomNum);
    id
  }

  /** For a fixed title the first and last six characters do not depend on
      the random number. */
  lemma AffixesStable(sha256: string -> Digest, movieName: string, r1: nat, r2: nat)
    requires r1 < 100 && r2 < 100
    ensures var a, b := GenerateID(sha256, movieName, r1), GenerateID(sha256, movieName, r2);
            a[..6] == b[..6] && a[|a| - 6..] == b[|b| - 6..]
  {
  }

  /** The middle segment of an id parses back to the random number. */
  lemma SaltParsesBack(sha256: string -> Digest, movieName: string, randomNum: nat)
    requires randomNum < 100
    ensures var id := GenerateID(sha256, movieName, randomNum);
            Atoi(id[6..|id| - 6]) == randomNum
  {
    AtoiItoa(randomNum);
  }

  /** Two different random numbers give two different ids for the same
      title: the id as a whole is not a function of the title. */
  lemma SaltVariesId(sha256: string -> Digest, movieName: string, r1: nat, r2: nat)
    requires r1 < 100 && r2 < 100 && r1 != r2
    ensures GenerateID(sha256, movieName, r1) != GenerateID(sha256, movieName, r2)
  {
    SaltParsesBack(sha256, movieName, r1);
    SaltParsesBack(sha256, movieName, r2);
  }

  /** Ids are never blank: hex digits are not white space. */
  lemma IdNotBlank(sha256: string -> Digest, movieName: string, randomNum: nat)
    requires randomNum < 100
    ensures !IsBlank(GenerateID(sha256, movieName, randomNum))
  {
    var id := GenerateID(sha256, movieName, randomNum);
    assert IsLowerHex(id[0]);
  }
}
