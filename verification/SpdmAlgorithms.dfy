/**
 * The algorithms of SPDM (DSP0274) by their bits, and the sample-key folders
 * that belong to them: the switch of the source, and what it stands for.
 */
module SpdmAlgorithms {
  import opened Bytes

  /** The base asymmetric algorithms, in the order of their bits. */
  datatype AsymAlgorithm =
    | RsaSsa2048 | RsaPss2048 | RsaSsa3072 | RsaPss3072
    | EcdsaP256 | RsaSsa4096 | RsaPss4096 | EcdsaP384
    | EcdsaP521 | Sm2P256 | Ed25519 | Ed448

  /** The base hash algorithms this requester supports, in the order of their bits. */
  datatype HashAlgorithm = Sha256 | Sha384 | Sha512

  function Power2(n: nat): nat {
    if n == 0 then 1 else 2 * Power2(n - 1)
  }

  function AsymBit(a: AsymAlgorithm): nat {
    match a
    case RsaSsa2048 => 0
    case RsaPss2048 => 1
    case RsaSsa3072 => 2
    case RsaPss3072 => 3
    case EcdsaP256 => 4
    case RsaSsa4096 => 5
    case RsaPss4096 => 6
    case EcdsaP384 => 7
    case EcdsaP521 => 8
    case Sm2P256 => 9
    case Ed25519 => 10
    case Ed448 => 11
  }

  function HashBit(h: HashAlgorithm): nat {
    match h case Sha256 => 0 case Sha384 => 1 case Sha512 => 2
  }

  function AsymMask(a: AsymAlgorithm): nat {
    Power2(AsymBit(a))
  }

  function HashMask(h: HashAlgorithm): nat {
    Power2(HashBit(h))
  }

  predicate IsAlgorithm(algo: nat) {
    exists a: AsymAlgorithm :: AsymMask(a) == algo
  }

  // ----- the folders

  datatype Family = Rsa | Ecp | Sm2 | Ed

  function FamilyOf(a: AsymAlgorithm): Family {
    match a
    case RsaSsa2048 | RsaPss2048 | RsaSsa3072 | RsaPss3072 | RsaSsa4096 | RsaPss4096 => Rsa
    case EcdsaP256 | EcdsaP384 | EcdsaP521 => Ecp
    case Sm2P256 => Sm2
    case Ed25519 | Ed448 => Ed
  }

  /** The size of the key, or the number of the curve. */
  function Number(a: AsymAlgorithm): nat {
    match a
    case RsaSsa2048 | RsaPss2048 => 2048
    case RsaSsa3072 | RsaPss3072 => 3072
    case RsaSsa4096 | RsaPss4096 => 4096
    case EcdsaP256 | Sm2P256 => 256
    case EcdsaP384 => 384
    case EcdsaP521 => 521
    case Ed25519 => 25519
    case Ed448 => 448
  }

  function Decimal(n: nat): string {
    if n < 10 then [(n + 48) as char] else Decimal(n / 10) + [(n % 10 + 48) as char]
  }

  /** A family and a number, of which SM2 has only one. */
  function Folder(a: AsymAlgorithm): string {
    match FamilyOf(a)
    case Rsa => "rsa" + Decimal(Number(a))
    case Ecp => "ecp" + Decimal(Number(a))
    case Sm2 => "sm2"
    case Ed => "ed" + Decimal(Number(a))
  }

  /** The switch of the source. */
  function AsymAlgoSubdir(algo: nat): Option<string> {
    if algo == 0x1 || algo == 0x2 then Some("rsa2048")
    else if algo == 0x4 || algo == 0x8 then Some("rsa3072")
    else if algo == 0x20 || algo == 0x40 then Some("rsa4096")
    else if algo == 0x10 then Some("ecp256")
    else if algo == 0x80 then Some("ecp384")
    else if algo == 0x100 then Some("ecp521")
    else if algo == 0x200 then Some("sm2")
    else if algo == 0x400 then Some("ed25519")
    else if algo == 0x800 then Some("ed448")
    else None
  }

  lemma Masks()
    ensures AsymMask(RsaSsa2048) == 0x1 && AsymMask(RsaPss2048) == 0x2
    ensures AsymMask(RsaSsa3072) == 0x4 && AsymMask(RsaPss3072) == 0x8
    ensures AsymMask(EcdsaP256) == 0x10 && AsymMask(RsaSsa4096) == 0x20
    ensures AsymMask(RsaPss4096) == 0x40 && AsymMask(EcdsaP384) == 0x80
    ensures AsymMask(EcdsaP521) == 0x100 && AsymMask(Sm2P256) == 0x200
    ensures AsymMask(Ed25519) == 0x400 && AsymMask(Ed448) == 0x800
    ensures HashMask(Sha256) == 0x1 && HashMask(Sha384) == 0x2 && HashMask(Sha512) == 0x4
  {
    assert Power2(3) == 8 && Power2(6) == 64 && Power2(9) == 512;
  }

  lemma KeySizes()
    ensures Decimal(2048) == "2048" && Decimal(3072) == "3072" && Decimal(4096) == "4096"
  {
    assert Decimal(20) == "20" && Decimal(204) == "204";
    assert Decimal(30) == "30" && Decimal(307) == "307";
    assert Decimal(40) == "40" && Decimal(409) == "409";
  }

  lemma Curves()
    ensures Decimal(256) == "256" && Decimal(384) == "384" && Decimal(521) == "521"
    ensures Decimal(25519) == "25519" && Decimal(448) == "448"
  {
    assert Decimal(25) == "25" && Decimal(255) == "255" && Decimal(2551) == "2551";
  }

  /** The switch finds the folder of every algorithm. */
  lemma FolderOfAlgorithm(a: AsymAlgorithm)
    ensures AsymAlgoSubdir(AsymMask(a)) == Some(Folder(a))
  {
    hide AsymMask, Decimal;
    Masks();
    KeySizes();
    Curves();
    assert "rsa" + "2048" == "rsa2048" && "rsa" + "3072" == "rsa3072" && "rsa" + "4096" == "rsa4096";
    assert "ecp" + "256" == "ecp256" && "ecp" + "384" == "ecp384" && "ecp" + "521" == "ecp521";
    assert "ed" + "25519" == "ed25519" && "ed" + "448" == "ed448";
  }

  /** It finds none for a number that is no algorithm's bit. */
  lemma AlgorithmOfFolder(algo: nat)
    ensures AsymAlgoSubdir(algo).Some? <==> IsAlgorithm(algo)
  {
    hide AsymMask;
    Masks();
    if AsymAlgoSubdir(algo).Some? {
      var a := if algo == 0x1 then RsaSsa2048 else if algo == 0x2 then RsaPss2048
               else if algo == 0x4 then RsaSsa3072 else if algo == 0x8 then RsaPss3072
               else if algo == 0x10 then EcdsaP256 else if algo == 0x20 then RsaSsa4096
               else if algo == 0x40 then RsaPss4096 else if algo == 0x80 then EcdsaP384
               else if algo == 0x100 then EcdsaP521 else if algo == 0x200 then Sm2P256
               else if algo == 0x400 then Ed25519 else Ed448;
      assert AsymMask(a) == algo;
    }
    if IsAlgorithm(algo) {
      var a: AsymAlgorithm :| AsymMask(a) == algo;
      FolderOfAlgorithm(a);
    }
  }
}
