/** lib/security.js: `authenticate`, the verification of an inbound call's bearer
    token (section 2.1 of RFC 6750), and its cache of used tokens, which
    refuses a token seen before and forgets tokens used more than a minute
    ago. */
module Security {
  import opened Wrappers
  import opened JsValues
  import opened JsStrings

  /** A used token and when it was used, in milliseconds. */
  datatype Entry = Entry(token: string, usedAt: int)

  /** How the promise of `authenticate` is settled: resolved, rejected, or
      handed to the signature check of `token`. A `replayed` token is also
      rejected by this code once the signature check has started; which of the
      two settles the promise depends on when the signature check calls back. */
  datatype Decision = Accepted | Rejected | SignatureCheck(token: string, replayed: bool)

  /** How long a token stays in the cache, in milliseconds. */
  const Window: int := 60000

  /** The token of an `Authorization` header: the header with its first
      `Bearer ` removed. */
  function Token(header: string): string {
    ReplaceFirst(header, "Bearer ", "")
  }

  predicate Cached(entries: seq<Entry>, token: string) {
    exists i :: 0 <= i < |entries| && entries[i].token == token
  }

  /** The leading entries used before `cutoff` removed, up to the first that
      is not. */
  function Prune(entries: seq<Entry>, cutoff: int): (r: seq<Entry>)
    decreases |entries|
  {
    if entries != [] && entries[0].usedAt < cutoff then Prune(entries[1..], cutoff) else entries
  }

  /** Entries ordered by the time they were used. */
  predicate InOrder(entries: seq<Entry>) {
    forall i, j :: 0 <= i < j < |entries| ==> entries[i].usedAt <= entries[j].usedAt
  }

  class TokenCache {
    /** `token_cache`. */
    var entries: seq<Entry>

    constructor()
      ensures entries == []
    {
      entries := [];
    }

    /** `authenticate(req, key)` at time `now`, with the configured secret
        and the request's `Authorization` header. Without a secret every
        call is accepted; without a header it is refused; otherwise the
        token goes to the signature check, and a token already in the cache
        is marked as replayed and leaves the cache as it is, while a new one
        has the stale head of the cache pruned and is appended. */
    method Authenticate(secret: Option<string>, authorization: Option<string>, now: int) returns (d: Decision)
      modifies this
      ensures !StrTruthy(secret) ==> d == Accepted && entries == old(entries)
      ensures StrTruthy(secret) && authorization.None? ==> d == Rejected && entries == old(entries)
      ensures StrTruthy(secret) && authorization.Some? && Cached(old(entries), Token(authorization.value)) ==>
                d == SignatureCheck(Token(authorization.value), true) && entries == old(entries)
      ensures StrTruthy(secret) && authorization.Some? && !Cached(old(entries), Token(authorization.value)) ==>
                d == SignatureCheck(Token(authorization.value), false) &&
                entries == Prune(old(entries), now - Window) + [Entry(Token(authorization.value), now)]
    {
      if !StrTruthy(secret) {
        return Accepted;
      }
      if authorization.None? {
        return Rejected;
      }
      var token := Token(authorization.value);
      if Cached(entries, token) {
        return SignatureCheck(token, true);
      }
      var oneMinAgo := now - Window;
      while |entries| > 0 && entries[0].usedAt < oneMinAgo
        invariant Prune(entries, oneMinAgo) == Prune(old(entries), oneMinAgo)
        decreases |entries|
      {
        entries := entries[1..];
      }
      entries := entries + [Entry(token, now)];
      return SignatureCheck(token, false);
    }
  }

  /** Pruning removes entries only from the front, keeps the order of the
      rest, removes only entries used before the cutoff, and stops at the
      first entry that is not. */
  lemma {:induction false} PruneIsSuffix(entries: seq<Entry>, cutoff: int)
    ensures exists k :: 0 <= k <= |entries| && Prune(entries, cutoff) == entries[k..] &&
                        (forall i :: 0 <= i < k ==> entries[i].usedAt < cutoff)
    ensures Prune(entries, cutoff) != [] ==> Prune(entries, cutoff)[0].usedAt >= cutoff
    decreases |entries|
  {
    if entries != [] && entries[0].usedAt < cutoff {
      PruneIsSuffix(entries[1..], cutoff);
      var k :| 0 <= k <= |entries[1..]| && Prune(entries[1..], cutoff) == entries[1..][k..] &&
               (forall i :: 0 <= i < k ==> entries[1..][i].usedAt < cutoff);
      assert entries[1..][k..] == entries[k + 1..];
      assert forall i :: 1 <= i < k + 1 ==> entries[i] == entries[1..][i - 1];
    } else {
      assert entries[0..] == entries;
    }
  }

  /** Every entry used at or after `cutoff`. */
  predicate AllSince(entries: seq<Entry>, cutoff: int) {
    forall i :: 0 <= i < |entries| ==> entries[i].usedAt >= cutoff
  }

  /** Every entry left after pruning a cache kept in order was used at or
      after the cutoff. */
  lemma PrunedAreRecent(entries: seq<Entry>, cutoff: int)
    requires InOrder(entries)
    ensures AllSince(Prune(entries, cutoff), cutoff)
  {
    PruneIsSuffix(entries, cutoff);
    var p := Prune(entries, cutoff);
    var k :| 0 <= k <= |entries| && p == entries[k..];
    forall i | 0 <= i < |p|
      ensures p[i].usedAt >= cutoff
    {
      assert p[i] == entries[k + i] && p[0] == entries[k];
    }
  }

  /** Every entry used no later than `t`. */
  predicate AllBy(entries: seq<Entry>, t: int) {
    forall i :: 0 <= i < |entries| ==> entries[i].usedAt <= t
  }

  lemma SuffixKeeps(entries: seq<Entry>, k: nat, t: int)
    requires k <= |entries| && InOrder(entries) && AllBy(entries, t)
    ensures InOrder(entries[k..]) && AllBy(entries[k..], t)
  {
    assert forall i :: 0 <= i < |entries| - k ==> entries[k..][i] == entries[k + i];
  }

  lemma AppendKeepsOrder(entries: seq<Entry>, e: Entry)
    requires InOrder(entries) && AllBy(entries, e.usedAt)
    ensures InOrder(entries + [e])
  {
    var after := entries + [e];
    forall i, j | 0 <= i < j < |after|
      ensures after[i].usedAt <= after[j].usedAt
    {
      assert after[i] == entries[i];
    }
  }

  /** A cache kept in order stays in order when it is pruned and a token
      used no earlier than any entry is appended. */
  lemma CacheStaysInOrder(entries: seq<Entry>, token: string, now: int)
    requires InOrder(entries) && AllBy(entries, now)
    ensures InOrder(Prune(entries, now - Window) + [Entry(token, now)])
  {
    PruneIsSuffix(entries, now - Window);
    var k :| 0 <= k <= |entries| && Prune(entries, now - Window) == entries[k..];
    SuffixKeeps(entries, k, now);
    AppendKeepsOrder(entries[k..], Entry(token, now));
  }

  /** Once a token has been checked, a second call with the same header
      finds it in the cache and is marked as replayed. */
  lemma ReplayRefused(entries: seq<Entry>, header: string, now: int)
    ensures Cached(Prune(entries, now - Window) + [Entry(Token(header), now)], Token(header))
  {
    var after := Prune(entries, now - Window) + [Entry(Token(header), now)];
    assert after[|after| - 1].token == Token(header);
  }

  /** The `Bearer ` prefix is dropped from a well-formed header. */
  lemma BearerToken(credentials: string)
    ensures Token("Bearer " + credentials) == credentials
  {
    var h := "Bearer " + credentials;
    assert OccursAt(h, "Bearer ", 0) by {
      assert h[0..7] == "Bearer ";
    }
    assert h[7..] == credentials;
  }
}
