/**
 * The credential list kept under the `passwords` store key, and the three
 * things the controller does to it: the upsert of `CONFIRM_SAVE`, the site
 * filter of `GET_CREDENTIALS` and the re-encryption loop of
 * `CHANGE_MASTER_PASSWORD`.
 */
module Credentials {
  import opened Wrappers
  import opened Text
  import opened Primitives
  import opened Utils

  /** One stored record: `{ id, site, username, password, created }`, plus `updated` once overwritten. */
  datatype Credential = Credential(
    id: string,
    site: string,
    username: string,
    password: Envelope,
    created: nat,
    updated: Option<nat>)

  /** The `{ site, username, password }` object a content script proposes for saving. */
  datatype Candidate = Candidate(site: string, username: string, password: string)

  // ---------------------------------------------------------------------
  // Upsert

  /** The duplicate test of `CONFIRM_SAVE`: the site ignoring case, the username exactly. */
  predicate SameAccount(c: Credential, site: string, username: string)
  {
    Lower(c.site) == Lower(site) && c.username == username
  }

  /** `i` is the first index holding the account, as `findIndex` reports it. */
  predicate IsFirstMatch(entries: seq<Credential>, site: string, username: string, i: int)
  {
    && 0 <= i < |entries|
    && SameAccount(entries[i], site, username)
    && forall j :: 0 <= j < i ==> !SameAccount(entries[j], site, username)
  }

  /** No record holds the account. */
  predicate NoMatch(entries: seq<Credential>, site: string, username: string)
  {
    forall j :: 0 <= j < |entries| ==> !SameAccount(entries[j], site, username)
  }

  /** `passwords.findIndex(...)`: the first index of the account, or -1. */
  function FindIndex(entries: seq<Credential>, site: string, username: string): (i: int)
    ensures i == -1 ==> NoMatch(entries, site, username)
    ensures i != -1 ==> IsFirstMatch(entries, site, username, i)
  {
    if |entries| == 0 then -1
    else if SameAccount(entries[0], site, username) then 0
    else
      var k := FindIndex(entries[1..], site, username);
      if k == -1 then -1 else k + 1
  }

  /** The record `CONFIRM_SAVE` appends: its id is the decimal text of the save time. */
  function NewEntry(site: string, username: string, enc: Envelope, now: nat): (c: Credential)
    ensures SameAccount(c, site, username)
    ensures forall i :: 0 <= i < |c.id| ==> IsDigitChar(c.id[i])
    ensures DecimalValue(c.id) == now
  {
    DecimalStringValue(now);
    Credential(DecimalString(now), site, username, enc, now, None)
  }

  /**
   * The duplicate check and update of `CONFIRM_SAVE`: the first record of the
   * account gets the new envelope and an `updated` time and keeps everything
   * else; without one, exactly one new record is appended.
   */
  function Upsert(entries: seq<Credential>, site: string, username: string, enc: Envelope, now: nat): (r: seq<Credential>)
    ensures forall i :: IsFirstMatch(entries, site, username, i) ==>
      r == entries[i := entries[i].(password := enc, updated := Some(now))]
    ensures NoMatch(entries, site, username) ==> r == entries + [NewEntry(site, username, enc, now)]
  {
    var index := FindIndex(entries, site, username);
    if index != -1 then entries[index := entries[index].(password := enc, updated := Some(now))]
    else entries + [NewEntry(site, username, enc, now)]
  }

  /** No account is held by two records. */
  predicate UniqueAccounts(entries: seq<Credential>)
  {
    forall i, j :: 0 <= i < j < |entries| ==> !SameAccount(entries[j], entries[i].site, entries[i].username)
  }

  /** The upsert never creates a second record for an account. */
  lemma UpsertKeepsAccountsUnique(entries: seq<Credential>, site: string, username: string, enc: Envelope, now: nat)
    requires UniqueAccounts(entries)
    ensures UniqueAccounts(Upsert(entries, site, username, enc, now))
  {
    var index := FindIndex(entries, site, username);
    if index == -1 {
      var r := Upsert(entries, site, username, enc, now);
      forall i, j | 0 <= i < j < |r|
        ensures !SameAccount(r[j], r[i].site, r[i].username)
      {
        if j == |entries| {
          assert !SameAccount(entries[i], site, username);
        }
      }
    }
  }

  /** After an upsert, a lookup of the account finds the record holding the new envelope. */
  lemma {:induction false} UpsertThenFind(entries: seq<Credential>, site: string, username: string, enc: Envelope, now: nat)
    ensures var r := Upsert(entries, site, username, enc, now);
      var i := FindIndex(r, site, username);
      0 <= i < |r| && r[i].password == enc
  {
    var r := Upsert(entries, site, username, enc, now);
    var index := FindIndex(entries, site, username);
    if index == -1 {
      var e := NewEntry(site, username, enc, now);
      assert IsFirstMatch(r, site, username, |entries|) by {
        assert r[|entries|] == e;
        forall j | 0 <= j < |entries| ensures !SameAccount(r[j], site, username) {
          assert r[j] == entries[j];
        }
      }
      FirstMatchIsFound(r, site, username, |entries|);
    } else {
      assert IsFirstMatch(r, site, username, index) by {
        forall j | 0 <= j < index ensures !SameAccount(r[j], site, username) {
          assert r[j] == entries[j];
        }
      }
      FirstMatchIsFound(r, site, username, index);
    }
  }

  /** The lookup reports the first index of the account whenever there is one. */
  lemma FirstMatchIsFound(entries: seq<Credential>, site: string, username: string, i: int)
    requires IsFirstMatch(entries, site, username, i)
    ensures FindIndex(entries, site, username) == i
  {
  }

  /** Saving the same account again overwrites and does not grow the list. */
  lemma UpsertTwiceKeepsLength(entries: seq<Credential>, site: string, username: string, enc1: Envelope, now1: nat, enc2: Envelope, now2: nat)
    ensures var once := Upsert(entries, site, username, enc1, now1);
      |Upsert(once, site, username, enc2, now2)| == |once|
  {
    UpsertThenFind(entries, site, username, enc1, now1);
  }

  // ---------------------------------------------------------------------
  // Site filter

  /** The filter of `GET_CREDENTIALS`: the lowercased site contains the lowercased domain. */
  predicate SiteMatches(c: Credential, domain: string)
  {
    Includes(Lower(c.site), Lower(domain))
  }

  /** `passwords.filter(...)`: the matching records, in their stored order. */
  function MatchingCredentials(entries: seq<Credential>, domain: string): (r: seq<Credential>)
    ensures |r| <= |entries|
    ensures forall k :: 0 <= k < |r| ==> SiteMatches(r[k], domain)
    ensures forall c :: c in r <==> c in entries && SiteMatches(c, domain)
  {
    if |entries| == 0 then []
    else
      var rest := MatchingCredentials(entries[1..], domain);
      assert forall c :: c in entries <==> c == entries[0] || c in entries[1..];
      if SiteMatches(entries[0], domain) then [entries[0]] + rest else rest
  }

  /** Filtering a concatenation filters each part, so the stored order is kept. */
  lemma {:induction false} MatchingConcat(a: seq<Credential>, b: seq<Credential>, domain: string)
    ensures MatchingCredentials(a + b, domain) == MatchingCredentials(a, domain) + MatchingCredentials(b, domain)
  {
    if |a| == 0 {
      assert a + b == b;
    } else {
      assert (a + b)[1..] == a[1..] + b;
      MatchingConcat(a[1..], b, domain);
    }
  }

  /** The first match is the earliest matching record, the one `GET_CREDENTIALS` decrypts. */
  lemma {:induction false} MatchingHead(entries: seq<Credential>, domain: string, j: int)
    requires 0 <= j < |entries| && SiteMatches(entries[j], domain)
    requires forall k :: 0 <= k < j ==> !SiteMatches(entries[k], domain)
    ensures |MatchingCredentials(entries, domain)| > 0
    ensures MatchingCredentials(entries, domain)[0] == entries[j]
  {
    if j > 0 {
      MatchingHead(entries[1..], domain, j - 1);
    }
  }

  // ---------------------------------------------------------------------
  // Rotation

  /** The string `decrypt` is given for an envelope: a tagged object's `payload`, or the raw string. */
  function Payload(e: Envelope): (r: string)
    ensures e.Raw? ==> Raw(r) == e
    ensures e.Tagged? ==> Tagged(e.tag, r) == e
  {
    if e.Tagged? then e.payload else e.text
  }

  /**
   * One pass of the `CHANGE_MASTER_PASSWORD` loop: a record whose envelope
   * opens to a non-empty plaintext under the old key is re-encrypted, as a raw
   * package, under the new key; any other record is kept verbatim.
   */
  function RotateEntry(s: Suite, item: Credential, oldKey: Key, newKey: Key, iv: Iv): (r: Credential)
    ensures r.(password := item.password) == item
    ensures r != item ==> r.password.Raw?
  {
    match Decrypt(s, item.password, oldKey)
    case Some(plain) =>
      if plain != "" then item.(password := Raw(Encrypt(s, plain, newKey, iv))) else item
    case None => item
  }

  /** A record readable under the old key is readable, with the same plaintext, under the new one. */
  lemma RotateEntryReencrypts(s: Suite, item: Credential, oldKey: Key, newKey: Key, iv: Iv, plain: string)
    requires Lawful(s)
    requires Decrypt(s, item.password, oldKey) == Some(plain) && plain != ""
    ensures Decrypt(s, RotateEntry(s, item, oldKey, newKey, iv).password, newKey) == Some(plain)
  {
    DecryptEncrypt(s, plain, newKey, iv);
  }

  /** A record the old key cannot read, or reads as empty text, is kept verbatim. */
  lemma RotateEntryKeepsUnreadable(s: Suite, item: Credential, oldKey: Key, newKey: Key, iv: Iv)
    requires Decrypt(s, item.password, oldKey) in {None, Some("")}
    ensures RotateEntry(s, item, oldKey, newKey, iv) == item
  {
  }

  /**
   * Every `'aes'` record `CONFIRM_SAVE` writes is a tagged object, which
   * `decrypt` cannot read: rotation keeps it under the old key, and its
   * payload no longer opens under the new key.
   */
  lemma RotationStrandsTaggedEntries(s: Suite, item: Credential, oldKey: Key, newKey: Key, iv: Iv, plain: string, iv0: Iv)
    requires Lawful(s)
    requires oldKey != newKey
    requires item.password == Tagged("aes", Encrypt(s, plain, oldKey, iv0))
    ensures RotateEntry(s, item, oldKey, newKey, iv) == item
    ensures Decrypt(s, Raw(Payload(item.password)), oldKey) == Some(plain)
    ensures Decrypt(s, Raw(Payload(RotateEntry(s, item, oldKey, newKey, iv).password)), newKey) == None
  {
    DecryptEncrypt(s, plain, oldKey, iv0);
    DecryptWrongKey(s, plain, oldKey, newKey, iv0);
  }

  /** The list the loop builds; the `encrypt` call for record `i` draws `ivs(i)`, and a record kept as it is draws none. */
  function Rotated(s: Suite, entries: seq<Credential>, oldKey: Key, newKey: Key, ivs: nat -> Iv): (r: seq<Credential>)
    ensures |r| == |entries|
    ensures forall i :: 0 <= i < |r| ==> r[i] == RotateEntry(s, entries[i], oldKey, newKey, ivs(i))
  {
    if |entries| == 0 then []
    else
      var n := |entries| - 1;
      Rotated(s, entries[..n], oldKey, newKey, ivs) + [RotateEntry(s, entries[n], oldKey, newKey, ivs(n))]
  }

  /** Rotation keeps the length, the order and every field but the envelope of every record. */
  lemma RotatedKeepsRecords(s: Suite, entries: seq<Credential>, oldKey: Key, newKey: Key, ivs: nat -> Iv)
    ensures var r := Rotated(s, entries, oldKey, newKey, ivs);
      |r| == |entries| && forall i :: 0 <= i < |r| ==> r[i].(password := entries[i].password) == entries[i]
  {
  }

  /** Rotation keeps every readable record readable, under the new key, with the same plaintext. */
  lemma RotatedReencrypts(s: Suite, entries: seq<Credential>, oldKey: Key, newKey: Key, ivs: nat -> Iv, i: int, plain: string)
    requires Lawful(s)
    requires 0 <= i < |entries|
    requires Decrypt(s, entries[i].password, oldKey) == Some(plain) && plain != ""
    ensures Decrypt(s, Rotated(s, entries, oldKey, newKey, ivs)[i].password, newKey) == Some(plain)
  {
    RotateEntryReencrypts(s, entries[i], oldKey, newKey, ivs(i), plain);
  }

  /** One more pass of the loop extends the list by the rotated next record. */
  lemma RotatedStep(s: Suite, entries: seq<Credential>, oldKey: Key, newKey: Key, ivs: nat -> Iv, n: nat)
    requires n < |entries|
    ensures Rotated(s, entries[..n + 1], oldKey, newKey, ivs)
      == Rotated(s, entries[..n], oldKey, newKey, ivs) + [RotateEntry(s, entries[n], oldKey, newKey, ivs(n))]
  {
    assert entries[..n + 1][..n] == entries[..n];
  }

  /** The `for (const item of passwords)` loop, pushing onto `updatedPasswords`. */
  method ReencryptAll(s: Suite, passwords: seq<Credential>, oldKey: Key, newKey: Key, ivs: nat -> Iv)
    returns (updatedPasswords: seq<Credential>)
    ensures updatedPasswords == Rotated(s, passwords, oldKey, newKey, ivs)
  {
    updatedPasswords := [];
    var n := 0;
    while n < |passwords|
      invariant 0 <= n <= |passwords|
      invariant updatedPasswords == Rotated(s, passwords[..n], oldKey, newKey, ivs)
    {
      var item := passwords[n];
      var plain := Decrypt(s, item.password, oldKey);
      var next;
      if plain.Some? && plain.value != "" {
        var encrypted := Encrypt(s, plain.value, newKey, ivs(n));
        next := item.(password := Raw(encrypted));
      } else {
        next := item;
      }
      assert next == RotateEntry(s, item, oldKey, newKey, ivs(n));
      RotatedStep(s, passwords, oldKey, newKey, ivs, n);
      updatedPasswords := updatedPasswords + [next];
      n := n + 1;
    }
    assert passwords[..n] == passwords;
  }
}
