/** Inbound dedup inside one mailbox (`workers/lib/inbound-claims.ts`): the
    stored rows and the claims on Message-IDs. */
module InboundClaims {
  import opened Strings

  /** Id of a delivery, and of the row it stores. */
  type Id = nat

  /** A claim on a Message-ID: pending until it names the row that was stored. */
  datatype Claim = Claim(claimId: Id, claimedAt: int, emailId: Option<Id>)

  type Claims = map<string, Claim>

  /** The stored rows: their Message-ID as received. */
  type Rows = map<Id, Option<string>>

  const STALE_MS: int := 15 * 60 * 1000
  const RETENTION_MS: int := 7 * 24 * 60 * 60 * 1000

  /** `normalizeInboundMessageId`: trimmed, without one `<` before and one `>`
      after. */
  function Normalize(messageId: string): string {
    var t := Trim(messageId);
    var t := if t != "" && t[0] == '<' then t[1..] else t;
    if t != "" && t[|t| - 1] == '>' then t[..|t| - 1] else t
  }

  /** A Message-ID that names its own claim. */
  predicate IsCanonical(messageId: string) {
    messageId != "" && Normalize(messageId) == messageId
  }

  /** The key a Message-ID is claimed under; empty when there is none. */
  function KeyOf(messageId: Option<string>): string {
    match messageId
    case None => ""
    case Some(m) => Normalize(m)
  }

  predicate HasRow(rows: Rows, messageId: string) {
    exists id | id in rows :: rows[id] == Some(messageId)
  }

  predicate IsLive(c: Claim, now: int) {
    c.emailId.None? && now - c.claimedAt < STALE_MS
  }

  function Pruned(claims: Claims, now: int): Claims {
    map k | k in claims && claims[k].claimedAt >= now - RETENTION_MS :: claims[k]
  }

  /** Whether the delivery may go on, and the claims after. */
  datatype Claimed = Claimed(ok: bool, claims: Claims)

  function ClaimMessage(rows: Rows, claims: Claims, messageId: string, id: Id, now: int): Claimed {
    var key := Normalize(messageId);
    if key == "" then Claimed(true, claims) else
    var kept := Pruned(claims, now);
    if HasRow(rows, key) || (key in kept && IsLive(kept[key], now)) then Claimed(false, kept)
    else Claimed(true, kept[key := Claim(id, now, None)])
  }

  /** A Message-ID is claimed unless it is stored or was claimed, and not yet
      stored, within a quarter of an hour; claims older than a week are dropped,
      and no other claim changes. */
  lemma ClaimAnswer(rows: Rows, claims: Claims, messageId: string, id: Id, now: int)
    ensures var key, c := Normalize(messageId), ClaimMessage(rows, claims, messageId, id, now);
      && (key == "" ==> c == Claimed(true, claims))
      && (key != "" ==>
            && (c.ok <==> (forall i | i in rows :: rows[i] != Some(key))
                          && !(key in claims && claims[key].emailId.None? && now - claims[key].claimedAt < 900_000))
            && (c.ok ==> key in c.claims && c.claims[key] == Claim(id, now, None))
            && forall k: string | k != key || !c.ok ::
                 && (k in c.claims <==> k in claims && now - claims[k].claimedAt <= 604_800_000)
                 && (k in c.claims ==> c.claims[k] == claims[k]))
  {
    hide Normalize;
  }

  function CompleteClaim(claims: Claims, key: string, id: Id): Claims {
    if key != "" && key in claims && claims[key].claimId == id
    then claims[key := claims[key].(emailId := Some(id))] else claims
  }

  /** The claims after a delivery gave up: its claim is completed when its row
      is stored after all, and dropped otherwise. Completing normalizes the key
      a second time. */
  function AbandonClaim(rows: Rows, claims: Claims, key: string, id: Id): Claims {
    if id in rows then CompleteClaim(claims, Normalize(key), id)
    else if key != "" && key in claims && claims[key].claimId == id && claims[key].emailId.None?
    then claims - {key} else claims
  }

  /** The two tables, updated in place. */
  class Tables {
    var rows: Rows
    var claims: Claims

    constructor()
      ensures rows == map[] && claims == map[]
    {
      rows, claims := map[], map[];
    }

    method ClaimInboundMessage(messageId: string, claimId: Id, now: int) returns (ok: bool)
      modifies this`claims
      ensures Claimed(ok, claims) == ClaimMessage(rows, old(claims), messageId, claimId, now)
    {
      var cleaned := Normalize(messageId);
      if cleaned == "" {
        return true;
      }
      claims := Pruned(claims, now);
      if HasRow(rows, cleaned) {
        return false;
      }
      if cleaned !in claims {
        claims := claims[cleaned := Claim(claimId, now, None)];
        return true;
      }
      var claim := claims[cleaned];
      if claim.emailId.None? && now - claim.claimedAt < STALE_MS {
        return false;
      }
      claims := claims[cleaned := Claim(claimId, now, None)];
      return true;
    }

    method CompleteInboundMessageClaim(messageId: string, emailId: Id)
      modifies this`claims
      ensures claims == CompleteClaim(old(claims), Normalize(messageId), emailId)
    {
      var cleaned := Normalize(messageId);
      if cleaned == "" {
        return;
      }
      if cleaned in claims && claims[cleaned].claimId == emailId {
        claims := claims[cleaned := claims[cleaned].(emailId := Some(emailId))];
      }
    }

    method AbandonInboundDelivery(emailId: Id, messageId: Option<string>) returns (stored: bool)
      modifies this`claims
      ensures stored == (emailId in rows)
      ensures claims == AbandonClaim(rows, old(claims), KeyOf(messageId), emailId)
    {
      var cleaned := KeyOf(messageId);
      stored := emailId in rows;
      if cleaned != "" {
        if stored {
          CompleteInboundMessageClaim(cleaned, emailId);
        } else if cleaned in claims && claims[cleaned].claimId == emailId && claims[cleaned].emailId.None? {
          claims := claims - {cleaned};
        }
      }
    }
  }
}
