/**
 * The two-tier store behind the key material: files on disk that cache a secure
 * storage, restored on demand. Its operations refine those on one plain map.
 */
module CertificateManager {
  import opened Prelude
  import opened KeyVault

  class DomainCertificateManager {
    const names: Domain
    var disk: Vault
    var secure: Vault

    constructor (names: Domain, disk: Vault)
      requires names.key !in disk && names.cert !in disk
      ensures this.names == names && this.disk == disk && secure == map[] && Valid()
    {
      this.names, this.disk, secure := names, disk, map[];
    }

    predicate Managed(f: string) {
      f == names.key || f == names.cert
    }

    /** Every managed file on disk equals its copy in the secure storage. */
    ghost predicate Valid()
      reads this
    {
      forall f :: Managed(f) && f in disk ==> f in secure && disk[f] == secure[f]
    }

    method RestoreToDisk(f: string) returns (restored: bool)
      requires Valid() && Managed(f)
      modifies `disk
      ensures Valid()
      ensures restored <==> f in secure
      ensures disk == if restored then old(disk)[f := secure[f]] else old(disk)
    {
      if f !in secure {
        return false;
      }
      disk := disk[f := secure[f]];
      return true;
    }

    /** The disk after a file that the secure storage holds has been asked for. */
    ghost function Cached(d: Vault, f: string): Vault
      reads `secure
    {
      if f in secure && f !in d then d[f := secure[f]] else d
    }

    /** After a positive answer the file is on disk; after a negative one the secure storage lacks the name. */
    method HasFile(f: string) returns (res: bool)
      requires Valid() && Managed(f)
      modifies `disk
      ensures Valid()
      ensures res <==> f in secure
      ensures res ==> f in disk
      ensures disk == Cached(old(disk), f)
    {
      res := f in disk;
      if !res {
        res := RestoreToDisk(f);
      }
    }

    method GetBytes(f: string) returns (r: Option<string>)
      requires Valid() && Managed(f)
      modifies `disk
      ensures Valid() && r == Read(secure, f)
      ensures disk == Cached(old(disk), f)
    {
      var exists_ := HasFile(f);
      if !exists_ {
        return None;
      }
      return Some(TextMode(disk[f]));
    }

    method GetPublicKeyBytes() returns (r: Option<string>)
      requires Valid()
      modifies `disk
      ensures Valid() && r == PublicKey(names, secure)
      ensures disk == Cached(old(disk), names.key)
    {
      var key := GetBytes(names.key);
      if key.None? {
        return None;
      }
      return names.publicOfKey(key.value);
    }

    /** The secure storage refuses a taken name unless it is forced; then nothing is written. */
    method StoreBytes(f: string, data: string, force: bool) returns (r: Result<()>)
      requires Valid() && Managed(f)
      modifies `disk, `secure
      ensures Valid()
      ensures r.Ok? <==> force || f !in old(secure)
      ensures secure == if r.Ok? then old(secure)[f := data] else old(secure)
      ensures disk == if r.Ok? then old(disk)[f := data] else old(disk)
    {
      if !force && f in secure {
        return Err(AlreadyExists);
      }
      secure := secure[f := data];
      disk := disk[f := data];
      return Ok(());
    }

    method DeleteBytes(f: string) returns (deleted: bool)
      requires Valid() && Managed(f)
      modifies `disk, `secure
      ensures Valid()
      ensures deleted <==> f in old(secure)
      ensures secure == old(secure) - {f} && disk == old(disk) - {f}
    {
      deleted := f in secure;
      secure := secure - {f};
      disk := disk - {f};
    }

    /** Creation answers Done whatever is stored: it never meets a taken name. */
    method CreatePrivateKeyFile(overwrite: bool, generated: string) returns (r: Reply)
      requires Valid()
      modifies `disk, `secure
      ensures Valid() && secure == After(names, old(secure), CreateKey(overwrite, generated))
      ensures r == Done
    {
      var exists_ := HasFile(names.key);
      if !overwrite && exists_ {
        return Done;
      }
      var stored := StoreBytes(names.key, generated, overwrite);
      if stored.Err? {
        return NameTaken;
      }
      return Done;
    }

    method CreateCertificateFile(data: string) returns (r: Reply)
      requires Valid()
      modifies `disk, `secure
      ensures Valid() && secure == After(names, old(secure), CreateCertificate(data))
      ensures r == Answer(names, old(secure), CreateCertificate(data))
    {
      var fromCertificate := names.publicOfCert(data);
      if fromCertificate.None? {
        return CertificateError;
      }
      var fromKey := GetPublicKeyBytes();
      if fromKey.None? {
        return CertificateError;
      }
      if fromKey != fromCertificate {
        return CertificateError;
      }
      var stored := StoreBytes(names.cert, data, false);
      if stored.Err? {
        return NameTaken;
      }
      return Done;
    }

    method DeleteKeyMaterial() returns (deleted: bool)
      requires Valid()
      modifies `disk, `secure
      ensures Valid() && secure == After(names, old(secure), DeleteMaterial)
      ensures names.key !in secure && names.cert !in secure && names.key !in disk && names.cert !in disk
      ensures deleted <==> names.key in old(secure)
    {
      var _ := DeleteBytes(names.cert);
      deleted := DeleteBytes(names.key);
    }

    /** One locked operation, or the loss of a file on disk. */
    method Perform(op: Op) returns (r: Reply)
      requires Valid()
      modifies `disk, `secure
      ensures Valid() && secure == After(names, old(secure), op)
      ensures r == Answer(names, old(secure), op)
    {
      match op
      case ReadKey =>
        var b := GetBytes(names.key);
        r := Bytes(b);
      case ReadPublicKey =>
        var b := GetPublicKeyBytes();
        r := Bytes(b);
      case ReadCertificate =>
        var b := GetBytes(names.cert);
        r := Bytes(b);
      case CreateKey(overwrite, generated) => r := CreatePrivateKeyFile(overwrite, generated);
      case CreateCertificate(data) => r := CreateCertificateFile(data);
      case DeleteMaterial =>
        var deleted := DeleteKeyMaterial();
        r := Deleted(deleted);
      case LoseFile(name) =>
        disk := disk - {name};
        r := Done;
    }

    /** Over every run, with files lost anywhere in it, the store answers and ends as the plain map does. */
    method Serve(ops: seq<Op>) returns (replies: seq<Reply>)
      requires Valid()
      modifies `disk, `secure
      ensures Valid() && secure == RunVault(names, old(secure), ops)
      ensures replies == RunReplies(names, old(secure), ops)
    {
      replies := [];
      var i := 0;
      while i < |ops|
        invariant 0 <= i <= |ops| && Valid()
        invariant secure == RunVault(names, old(secure), ops[..i])
        invariant replies == RunReplies(names, old(secure), ops[..i])
      {
        assert ops[..i + 1][..i] == ops[..i];
        var r := Perform(ops[i]);
        replies := replies + [r];
        i := i + 1;
      }
      assert ops[..i] == ops;
    }
  }
}
