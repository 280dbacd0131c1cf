/**
 What a committed rotation does, row by row, when the SELECT over the secrets may stop early: the
 engine does not tell an exhausted scan from a failed one (src/db/secrets.cc:169), so a rotation
 can commit without having re-encrypted every row.
 */
module Rotation {
  import opened Types
  import opened Crypto
  import opened Calendar
  import opened Tables
  import opened Vault
  import opened Representation

  /** The stored KEK unwraps under the hash to `raw` and opens all secrets of the user. */
  ghost predicate OpenAccount(c: Suite, t: Tables, id: nat, hash: Token, raw: Token) {
    && RawOf(c, hash, t.keks, id) == Some(raw)
    && forall k :: k in t.secrets && k.owner == id ==> Opens(c, raw, t.secrets[k])
  }

  /** Same row, same contents in the clear. */
  ghost predicate SameContents(c: Suite, raw: Token, row: SecretRow, raw': Token, row': SecretRow) {
    && c.open(raw', row'.nonce, row'.box) == c.open(raw, row.nonce, row.box)
    && row'.id == row.id && row'.pub == row.pub && row'.description == row.description
  }

  /** A row that the scan delivered has been re-encrypted; a row it missed has been left as it was. */
  lemma RotatedRow(c: Suite, t: Tables, id: nat, raw: Token, env: Env, k: SecretKey)
    requires Ideal(c) && AllOpen(c, t, id, raw, env.scan) && k in t.secrets
    ensures var row' := ResealScanned(c, t, id, raw, env)[k];
      if Scanned(k, id, env.scan)
      then Opens(c, env.kek, row') && SameContents(c, raw, t.secrets[k], env.kek, row')
      else row' == t.secrets[k]
  {
  }

  lemma NewKek(c: Suite, t: Tables, id: nat, hash: Token, env: Env)
    requires Ideal(c)
    ensures var rotated := RotateTx(c, t, id, hash, env);
      rotated.Some? ==>
        && id in t.keks && RawKek(c, hash, t.keks[id]).Some?
        && AllOpen(c, t, id, RawKek(c, hash, t.keks[id]).value, env.scan)
        && rotated.value == t.(
             secrets := ResealScanned(c, t, id, RawKek(c, hash, t.keks[id]).value, env),
             keks := t.keks[id := rotated.value.keks[id]])
        && RawKek(c, hash, rotated.value.keks[id]) == Some(env.kek)
        && rotated.value.keks[id].version == t.keks[id].version + 1
        && rotated.value.keks[id].expiresAt == ExpiresAt(env.now)
  {
  }

  /**
   A committed rotation leaves the account in order if and only if its scan delivered every row.
   Each row delivered opens under the new KEK to the same contents; each row missed stays encrypted
   under the discarded KEK.
   */
  lemma RotationOutcome(c: Suite, t: Tables, id: nat, hash: Token, raw: Token, env: Env)
    requires Ideal(c) && OpenAccount(c, t, id, hash, raw) && env.kek != raw
    requires RotateTx(c, t, id, hash, env).Some?
    ensures var t' := RotateTx(c, t, id, hash, env).value;
      && t'.secrets.Keys == t.secrets.Keys && t'.users == t.users
      && t'.keks.Keys == t.keks.Keys && t'.keks[id].version == t.keks[id].version + 1
      && RawOf(c, hash, t'.keks, id) == Some(env.kek)
      && (OpenAccount(c, t', id, hash, env.kek) <==> ScanComplete(t, id, env.scan))
      && (forall k :: k in t.secrets && k.owner == id && k.name in env.scan ==>
            Opens(c, env.kek, t'.secrets[k]) && SameContents(c, raw, t.secrets[k], env.kek, t'.secrets[k]))
      && (forall k :: k in t.secrets && k.owner == id && k.name !in env.scan ==>
            t'.secrets[k] == t.secrets[k] && !Opens(c, env.kek, t'.secrets[k]))
  {
    hide RotateTx;
    hide RawKek;
    hide SameContents;
    NewKek(c, t, id, hash, env);
    var t' := RotateTx(c, t, id, hash, env).value;
    ResealKeepsKeys(c, t, id, raw, env);
    forall k | k in t.secrets && k.owner == id
      ensures Opens(c, env.kek, t'.secrets[k]) <==> k.name in env.scan
      ensures if k.name in env.scan then SameContents(c, raw, t.secrets[k], env.kek, t'.secrets[k])
              else t'.secrets[k] == t.secrets[k]
    {
      RotatedRow(c, t, id, raw, env, k);
    }
  }

  // ---- a concrete loss ----

  const LOST_KEK := Raw(1)
  const HASH := Pair(Text("password"), Raw(2))
  const SALT := Raw(3)

  /** One user with one secret under the symbolic suite. */
  function OneSecret(): Tables {
    var box := Sealed([7], Pair(LOST_KEK, Raw(4)));
    Tables(map["alice" := UserRow(1, HASH)],
           map[1 := KekRow(Pair(Pair(HASH, SALT), LOST_KEK), SALT, "1970-04-01T00:00:00Z", 1)],
           map[SecretKey(1, "key") := SecretRow(1, box, Raw(4), [], "", "1970-01-01T00:00:00Z")],
           1, 1)
  }

  /** No step fails, but the scan stops before its first row. */
  function ShortScan(): Env {
    Env(0, (_: Step) => false, (_: string) => Ok, Raw(0), Raw(5), Raw(6), Raw(7), (_: string) => Raw(8), [])
  }

  /** Rotation reports success, and the secret can no longer be opened. */
  lemma ShortScanLosesRows()
    ensures Ideal(Symbolic()) && OpenAccount(Symbolic(), OneSecret(), 1, HASH, LOST_KEK)
    ensures var rotated := RotateTx(Symbolic(), OneSecret(), 1, HASH, ShortScan());
      rotated.Some? && !Opens(Symbolic(), Raw(5), rotated.value.secrets[SecretKey(1, "key")])
      && RawKek(Symbolic(), HASH, rotated.value.keks[1]) == Some(Raw(5))
  {
    hide Format;
    SymbolicIsIdeal();
    var c, t, env := Symbolic(), OneSecret(), ShortScan();
    assert c.unwrap(c.derive(HASH, SALT), t.keks[1].wrapped) == Some(LOST_KEK);
    assert !Scanned(SecretKey(1, "key"), 1, env.scan);
    assert ResealScanned(c, t, 1, LOST_KEK, env)[SecretKey(1, "key")] == t.secrets[SecretKey(1, "key")];
  }
}
