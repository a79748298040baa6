/** The nonce framing around authenticated encryption, for data at rest and for backups.  Byte
    strings are strings; ciphers, key derivation and text encodings are parameters. */
module Crypto {
  import opened Text

  const NONCE_SIZE := 12

  datatype Codec = Codec(encode: string -> string, decode: string -> Option<string>) {
    ghost predicate Faithful() {
      forall s :: decode(encode(s)) == Some(s) && (s != "" ==> encode(s) != "")
    }
  }

  /** `seal` and `open` take key, nonce and text; `derive` makes a key of a password. */
  datatype Suite = Suite(
    seal: (string, string, string) -> string,
    open: (string, string, string) -> Option<string>,
    derive: string -> string,
    base64: Codec, hex: Codec)
  {
    /** What is sealed opens to the same text under its key and under no other, and encodings can
        be undone.  Of the key derivation nothing is assumed. */
    ghost predicate Ideal() {
      && (forall k, n, p :: open(k, n, seal(k, n, p)) == Some(p))
      && (forall k, k', n, p :: k != k' ==> open(k', n, seal(k, n, p)) == None)
      && base64.Faithful() && hex.Faithful()
    }

    function Frame(key: string, nonce: string, plain: string): string {
      nonce + seal(key, nonce, plain)
    }

    function Unframe(key: string, data: string): Option<string> {
      if |data| < NONCE_SIZE then None else open(key, data[..NONCE_SIZE], data[NONCE_SIZE..])
    }

    function Encrypt(key: string, nonce: string, plain: string): string {
      base64.encode(Frame(key, nonce, plain))
    }

    function Decrypt(key: string, text: string): Option<string> {
      match base64.decode(text)
      case None => None
      case Some(data) => Unframe(key, data)
    }

    function ExportEncrypt(password: string, nonce: string, plain: string): string {
      hex.encode(Frame(derive(password), nonce, plain))
    }

    function ExportDecrypt(password: string, text: string): Option<string> {
      match hex.decode(text)
      case None => None
      case Some(data) => Unframe(derive(password), data)
    }

    lemma FrameOpens(key: string, key': string, nonce: string, plain: string)
      requires Ideal() && |nonce| == NONCE_SIZE
      ensures Frame(key, nonce, plain) != ""
      ensures Unframe(key', Frame(key, nonce, plain)) == if key == key' then Some(plain) else None
    {
      var data := Frame(key, nonce, plain);
      assert data[..NONCE_SIZE] == nonce && data[NONCE_SIZE..] == seal(key, nonce, plain);
    }

    /** Data encrypted under one master key is read back under that key and under no other. */
    lemma DecryptExactly(key: string, key': string, nonce: string, plain: string)
      requires Ideal() && |nonce| == NONCE_SIZE
      ensures Encrypt(key, nonce, plain) != ""
      ensures Decrypt(key', Encrypt(key, nonce, plain)) == if key == key' then Some(plain) else None
    {
      FrameOpens(key, key', nonce, plain);
    }

    /** Likewise for backups and the keys derived of their passwords. */
    lemma ExportDecryptExactly(password: string, password': string, nonce: string, plain: string)
      requires Ideal() && |nonce| == NONCE_SIZE
      ensures ExportEncrypt(password, nonce, plain) != ""
      ensures ExportDecrypt(password', ExportEncrypt(password, nonce, plain)) ==
              if derive(password) == derive(password') then Some(plain) else None
    {
      FrameOpens(derive(password), derive(password'), nonce, plain);
    }
  }

  // ---------- The assumptions are consistent ----------

  function Tag(key: string): string {
    IntText(|key|) + ":" + key
  }

  lemma TagPrefix(k: string, k': string, p: string)
    requires Tag(k') <= Tag(k) + p
    ensures k == k'
  {
    var s := Tag(k) + p;
    var rest := s[|Tag(k')|..];
    assert s == IntText(|k|) + [':'] + (k + p);
    assert s == IntText(|k'|) + [':'] + (k' + rest);
    IntTextChars(|k|);
    IntTextChars(|k'|);
    FirstSeparator(':', IntText(|k|), k + p, IntText(|k'|), k' + rest);
    IntTextInjective(|k|, |k'|);
    assert k == (k + p)[..|k|] == (k' + rest)[..|k|] == k';
  }

  function Sample(): Suite {
    Suite((k, n, p) => Tag(k) + p,
          (k, n, c) => if Tag(k) <= c then Some(c[|Tag(k)|..]) else None,
          p => p,
          Codec(s => s, s => Some(s)), Codec(s => s, s => Some(s)))
  }

  /** An ideal suite exists. */
  lemma IdealExists()
    ensures Sample().Ideal()
  {
    var s := Sample();
    forall k, n, p ensures s.open(k, n, s.seal(k, n, p)) == Some(p) {
      assert (Tag(k) + p)[|Tag(k)|..] == p;
    }
    forall k, k', n, p | k != k' ensures s.open(k', n, s.seal(k, n, p)) == None {
      if Tag(k') <= Tag(k) + p { TagPrefix(k, k', p); }
    }
  }
}
