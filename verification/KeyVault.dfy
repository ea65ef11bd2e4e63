/**
 * The key-material store as its users see it: one plain map from file names to
 * bytes, and what each operation on it does and answers.
 */
module KeyVault {
  import opened Prelude
  import opened Text

  type Vault = map<string, string>

  /** File names, and how public keys are taken out of private keys and certificates. */
  datatype Names = Names(key: string, cert: string,
                         publicOfKey: string -> Option<string>, publicOfCert: string -> Option<string>)

  type Domain = n: Names | n.key != n.cert witness Names("k", "c", (s: string) => None, (s: string) => None)

  // ----- Reading a file as text -----

  /** Files are read in text mode, where every kind of line end becomes a line feed. */
  function TextMode(s: string): string {
    if s == "" then ""
    else if s[0] == '\r' then "\n" + TextMode(if |s| > 1 && s[1] == '\n' then s[2..] else s[1..])
    else [s[0]] + TextMode(s[1..])
  }

  lemma {:induction false} TextModeHasNoReturn(s: string)
    ensures '\r' !in TextMode(s)
    decreases |s|
  {
    if s != "" {
      if s[0] == '\r' && |s| > 1 && s[1] == '\n' {
        TextModeHasNoReturn(s[2..]);
      } else {
        TextModeHasNoReturn(s[1..]);
      }
    }
  }

  lemma {:induction false} TextModeKeeps(s: string)
    requires '\r' !in s
    ensures TextMode(s) == s
  {
    if s != "" {
      assert s[0] in s;
      forall x | x in s[1..] ensures x in s {}
      TextModeKeeps(s[1..]);
    }
  }

  /** Both kinds of line end with a return become a line feed, the longer one first. */
  lemma {:induction false} TextModeIs(s: string)
    ensures TextMode(s) == Replace(Replace(s, "\r\n", "\n"), "\r", "\n")
    decreases |s|
  {
    if s != "" {
      var n := if "\r\n" <= s then 2 else 1;
      var rest := Replace(s[n..], "\r\n", "\n");
      TextModeIs(s[n..]);
      var once := (if n == 2 then "\n" else [s[0]]) + rest;
      assert Replace(s, "\r\n", "\n") == once;
      assert once[0] == (if n == 2 then '\n' else s[0]) && once[1..] == rest;
      assert "\r" <= once <==> once[0] == '\r';
    }
  }

  /** What is read back is what was stored exactly when the bytes hold no carriage return. */
  lemma {:induction false} ReadBackIff(s: string)
    ensures TextMode(s) == s <==> '\r' !in s
  {
    TextModeHasNoReturn(s);
    if '\r' !in s {
      TextModeKeeps(s);
    }
  }

  function Read(v: Vault, f: string): Option<string> {
    if f in v then Some(TextMode(v[f])) else None
  }

  function PublicKey(n: Names, v: Vault): Option<string> {
    match Read(v, n.key)
    case None => None
    case Some(bytes) => n.publicOfKey(bytes)
  }

  // ----- Operations -----

  datatype Op =
    | ReadKey
    | ReadPublicKey
    | ReadCertificate
    | CreateKey(overwrite: bool, fresh_: string)
    | CreateCertificate(data: string)
    | DeleteMaterial
    | LoseFile(name: string)

  datatype Reply =
    | Bytes(bytes: Option<string>)
    | Done
    | CertificateError
    | NameTaken
    | Deleted(existed: bool)

  function After(n: Names, v: Vault, op: Op): Vault {
    match op
    case CreateKey(overwrite, k) => if !overwrite && n.key in v then v else v[n.key := k]
    case CreateCertificate(data) => if Answer(n, v, op) == Done then v[n.cert := data] else v
    case DeleteMaterial => v - {n.key, n.cert}
    case _ => v
  }

  function Answer(n: Names, v: Vault, op: Op): Reply {
    match op
    case ReadKey => Bytes(Read(v, n.key))
    case ReadPublicKey => Bytes(PublicKey(n, v))
    case ReadCertificate => Bytes(Read(v, n.cert))
    case CreateKey(_, _) => Done
    case CreateCertificate(data) =>
      if n.publicOfCert(data).None? || PublicKey(n, v).None? || PublicKey(n, v) != n.publicOfCert(data)
      then CertificateError
      else if n.cert in v then NameTaken
      else Done
    case DeleteMaterial => Deleted(n.key in v)
    case LoseFile(_) => Done
  }

  /** The map after a run, from the last operation back. */
  function RunVault(n: Names, v: Vault, ops: seq<Op>): Vault {
    if ops == [] then v else After(n, RunVault(n, v, ops[..|ops| - 1]), ops[|ops| - 1])
  }

  function RunReplies(n: Names, v: Vault, ops: seq<Op>): seq<Reply> {
    if ops == [] then []
    else RunReplies(n, v, ops[..|ops| - 1])
         + [Answer(n, RunVault(n, v, ops[..|ops| - 1]), ops[|ops| - 1])]
  }

  // ----- The operations alone tell what is stored -----

  /** The key of the latest creation that was not in vain, unless a deletion came after it. */
  function KeyFrom(ops: seq<Op>): Option<string> {
    if ops == [] then None
    else
      var before := KeyFrom(ops[..|ops| - 1]);
      match ops[|ops| - 1]
      case CreateKey(overwrite, k) => if overwrite || before.None? then Some(k) else before
      case DeleteMaterial => None
      case _ => before
  }

  /** The certificate that was put first after the latest deletion, matching the key as it was then. */
  function CertificateFrom(n: Names, ops: seq<Op>): Option<string> {
    if ops == [] then None
    else
      var before := CertificateFrom(n, ops[..|ops| - 1]);
      match ops[|ops| - 1]
      case CreateCertificate(data) =>
        if before.None? && Matches(n, KeyFrom(ops[..|ops| - 1]), data) then Some(data) else before
      case DeleteMaterial => None
      case _ => before
  }

  /** A key that loads, as it is read, and a certificate of the same public key. */
  predicate Matches(n: Names, key: Option<string>, data: string) {
    key.Some? && n.publicOfCert(data).Some? && n.publicOfKey(TextMode(key.value)) == n.publicOfCert(data)
  }

  function Shown(stored: Option<string>): Reply {
    Bytes(if stored.Some? then Some(TextMode(stored.value)) else None)
  }

  function Stored(v: Vault, f: string): Option<string> {
    if f in v then Some(v[f]) else None
  }

  /** Over every run from the empty map, what is stored is what the operations alone tell, and nothing else. */
  lemma {:induction false} RunStores(n: Domain, ops: seq<Op>)
    ensures var v := RunVault(n, map[], ops);
            Stored(v, n.key) == KeyFrom(ops) && Stored(v, n.cert) == CertificateFrom(n, ops) &&
            v.Keys <= {n.key, n.cert}
  {
    if ops != [] {
      RunStores(n, ops[..|ops| - 1]);
    }
  }

  lemma {:induction false} ReplyAt(n: Names, v: Vault, ops: seq<Op>, i: nat)
    requires i < |ops|
    ensures |RunReplies(n, v, ops)| == |ops|
    ensures RunReplies(n, v, ops)[i] == Answer(n, RunVault(n, v, ops[..i]), ops[i])
  {
    var last := |ops| - 1;
    if last > 0 {
      ReplyAt(n, v, ops[..last], if i < last then i else 0);
      assert i < last ==> ops[..last][..i] == ops[..i];
    }
  }

  /** So the answer to every operation of a run follows from the operations before it. */
  lemma {:induction false} RepliesFollow(n: Domain, ops: seq<Op>, i: nat)
    requires i < |ops|
    ensures |RunReplies(n, map[], ops)| == |ops|
    ensures var r := RunReplies(n, map[], ops)[i];
            var key, cert := KeyFrom(ops[..i]), CertificateFrom(n, ops[..i]);
            match ops[i]
            case ReadKey => r == Shown(key)
            case ReadCertificate => r == Shown(cert)
            case ReadPublicKey => r == Bytes(if key.Some? then n.publicOfKey(TextMode(key.value)) else None)
            case CreateKey(_, _) => r == Done
            case CreateCertificate(data) =>
              r == if !Matches(n, key, data) then CertificateError else if cert.Some? then NameTaken else Done
            case DeleteMaterial => r == Deleted(key.Some?)
            case LoseFile(_) => r == Done
  {
    ReplyAt(n, map[], ops, i);
    RunStores(n, ops[..i]);
  }

  // ----- Certificates and keys -----

  /** A stored certificate has a stored private key with the same public key. */
  predicate Matched(n: Names, v: Vault) {
    n.cert in v ==> n.key in v && PublicKey(n, v).Some? && PublicKey(n, v) == n.publicOfCert(v[n.cert])
  }

  predicate NeverOverwrites(ops: seq<Op>) {
    forall i :: 0 <= i < |ops| ==> !(ops[i].CreateKey? && ops[i].overwrite)
  }

  /** One operation separates a matched pair exactly when it overwrites the key by one of another public key. */
  lemma {:induction false} MismatchIff(n: Domain, v: Vault, op: Op)
    requires Matched(n, v)
    ensures !Matched(n, After(n, v, op)) <==>
            op.CreateKey? && op.overwrite && n.cert in v && n.publicOfKey(TextMode(op.fresh_)) != PublicKey(n, v)
  {
  }

  /** A run that does: a certificate is created for a key that is then overwritten. */
  lemma {:induction false} OverwriteSeparates(n: Domain, k: string, cert: string, other: string)
    requires n.publicOfKey(TextMode(k)).Some? && n.publicOfKey(TextMode(k)) == n.publicOfCert(cert)
    requires n.publicOfKey(TextMode(other)) != n.publicOfCert(cert)
    ensures var ops := [CreateKey(false, k), CreateCertificate(cert), CreateKey(true, other)];
            !Matched(n, RunVault(n, map[], ops)) && RunReplies(n, map[], ops) == [Done, Done, Done]
  {
    var ops := [CreateKey(false, k), CreateCertificate(cert), CreateKey(true, other)];
    var one, two := [ops[0]], [ops[0], ops[1]];
    assert one[..0] == [] && two[..1] == one && ops[..2] == two;
    assert RunVault(n, map[], one) == map[n.key := k];
    assert RunVault(n, map[], two) == map[n.key := k][n.cert := cert];
    assert RunReplies(n, map[], one) == [Done] && RunReplies(n, map[], two) == [Done, Done];
  }

  /** In every run without overwriting, a stored certificate matches the stored private key. */
  lemma {:induction false} AlwaysMatched(n: Domain, ops: seq<Op>)
    requires NeverOverwrites(ops)
    ensures Matched(n, RunVault(n, map[], ops))
  {
    if ops != [] {
      var before := ops[..|ops| - 1];
      assert forall i :: 0 <= i < |before| ==> before[i] == ops[i];
      AlwaysMatched(n, before);
      MismatchIff(n, RunVault(n, map[], before), ops[|ops| - 1]);
    }
  }

  /** Without overwriting, only deletion takes a stored key away. */
  lemma {:induction false} KeyStays(n: Domain, v: Vault, ops: seq<Op>)
    requires NeverOverwrites(ops) && n.key in v
    requires forall i :: 0 <= i < |ops| ==> !ops[i].DeleteMaterial?
    ensures n.key in RunVault(n, v, ops) && RunVault(n, v, ops)[n.key] == v[n.key]
  {
    if ops != [] {
      var before := ops[..|ops| - 1];
      assert forall i :: 0 <= i < |before| ==> before[i] == ops[i];
      KeyStays(n, v, before);
    }
  }
}
