/**
  The federated token cache of crates/kaas-ui-core/src/federated.rs. Instants and durations are
  nanoseconds; an exchange is what it brought back.
*/
module TokenCache {
  import opened Text
  import opened Numbers

  const U64_MAX: nat := 0xFFFF_FFFF_FFFF_FFFF
  const MILLI: nat := 1_000_000
  const SECOND: nat := 1_000_000_000
  const MAX_LIFETIME: nat := 24 * 60 * 60 * SECOND

  // ----- how much of a lifetime to use -----

  function UsableLifetime(lifetime: nat, margin: nat): nat {
    var millis := Min(lifetime / MILLI, U64_MAX);
    var byFactor := Min(millis * 8, U64_MAX) / 10 * MILLI;
    Max(Min(byFactor, SatSub(lifetime, margin)), lifetime / 2)
  }

  /**
    Between half and four fifths of any lifetime is used, and what is left before expiry is at least the
    margin, or half the lifetime where the margin is more than that.
  */
  lemma UsableBounds(lifetime: nat, margin: nat)
    ensures var usable := UsableLifetime(lifetime, margin);
            && lifetime / 2 <= usable <= lifetime
            && 5 * usable <= 4 * lifetime
            && lifetime - usable >= Min(margin, lifetime / 2)
  {
    var millis := lifetime / MILLI;
    assert millis * MILLI <= lifetime;
    var tenths := Min(Min(millis, U64_MAX) * 8, U64_MAX) / 10;
    assert 10 * tenths <= 8 * millis;
    assert 10 * (tenths * MILLI) <= 8 * (millis * MILLI);
  }

  /** For the whole seconds an issuer speaks in, the factor is exactly four fifths. */
  lemma UsableOfWholeSeconds(seconds: nat, margin: nat)
    requires seconds * SECOND <= MAX_LIFETIME
    ensures var lifetime := seconds * SECOND;
            UsableLifetime(lifetime, margin) == Max(Min(4 * lifetime / 5, SatSub(lifetime, margin)), lifetime / 2)
  {
    var lifetime := seconds * SECOND;
    assert lifetime == seconds * 1000 * MILLI;
    assert lifetime / MILLI == seconds * 1000;
    assert seconds * 1000 * 8 / 10 == seconds * 800;
    assert 4 * lifetime / 5 == seconds * 800 * MILLI;
  }

  // ----- the lifetime an answer states -----

  /** `expires_in`, as JSON may hold it. */
  datatype ExpiresIn = Missing | Number(n: nat) | Quoted(text: string) | Other

  /** `str::parse::<u64>`: digits, with at most a plus sign before them, that fit. */
  function ParseU64(text: string): Option<nat> {
    var digits := if text != [] && text[0] == '+' then text[1..] else text;
    if digits == [] || exists c | c in digits :: !IsAsciiDigit(c) then None
    else if DecimalValue(digits) > U64_MAX then None
    else Some(DecimalValue(digits))
  }

  /** A number, a number in quotes, or the conservative minute; and never more than a day. */
  function StatedLifetime(expires: ExpiresIn): nat {
    var seconds := match expires
      case Number(n) => if n <= U64_MAX then n else 60
      case Quoted(text) => ParseU64(text).GetOr(60)
      case _ => 60;
    Min(seconds * SECOND, MAX_LIFETIME)
  }

  /** The seconds an answer gives, with or without quotes and a plus sign; anything else is no number. */
  lemma ParseU64Means(n: nat, text: string)
    ensures ParseU64(Decimal(n)) == (if n <= 0xFFFF_FFFF_FFFF_FFFF then Some(n) else None)
    ensures ParseU64("+" + Decimal(n)) == ParseU64(Decimal(n))
    ensures text == "" || text == "+" || (exists c | c in text :: !IsAsciiDigit(c) && c != '+') ==> ParseU64(text).None?
  {
    DecimalRoundTrip(n);
    var digits := Decimal(n);
    assert digits[0] in digits && IsAsciiDigit(digits[0]);
    assert ("+" + digits)[1..] == digits;
    assert forall c | c in digits :: IsAsciiDigit(c);
    if c :| c in text && !IsAsciiDigit(c) && c != '+' {
      var stripped := if text[0] == '+' then text[1..] else text;
      assert c in stripped;
    }
  }

  /** A lifetime is the seconds given, up to a day; where none can be read, a minute. */
  lemma StatedLifetimeMeans(expires: ExpiresIn)
    ensures StatedLifetime(expires) == Min(
              1_000_000_000 * (match expires
                               case Number(n) => if n <= 0xFFFF_FFFF_FFFF_FFFF then n else 60
                               case Quoted(text) => if ParseU64(text).Some? then ParseU64(text).value else 60
                               case _ => 60),
              86_400_000_000_000)
    ensures expires == Number(3600) || expires == Quoted("3600") ==> StatedLifetime(expires) == 3_600_000_000_000
  {
    if expires == Quoted("3600") {
      DecimalRoundTrip(3600);
      assert Decimal(3600) == "3600";
      ParseU64Means(3600, "");
    }
  }

  /** Quoting a lifetime does not change it. */
  lemma QuotedLifetimeIsTheSame(n: nat)
    ensures StatedLifetime(Quoted(Decimal(n))) == StatedLifetime(Number(n))
  {
    DecimalRoundTrip(n);
    var text := Decimal(n);
    assert text[0] in text && IsAsciiDigit(text[0]);
    assert forall c | c in text :: IsAsciiDigit(c);
  }

  // ----- the cache -----

  datatype Cached = Cached(token: string, refreshAfter: nat, expiresAt: nat)

  /** What one exchange brought back. */
  datatype Answer = Granted(token: string, expires: ExpiresIn) | Refused(error: string)

  /** One exchange: when it was started, and what it left in the cache. */
  datatype Exchange = Exchange(start: nat, fetched: Option<Cached>)

  /** What the last exchange that succeeded left. */
  function Latest(exchanges: seq<Exchange>): Option<Cached> {
    if exchanges == [] then None
    else if exchanges[|exchanges| - 1].fetched.Some? then exchanges[|exchanges| - 1].fetched
    else Latest(exchanges[..|exchanges| - 1])
  }

  /** No exchange is started while the token in hand is still to be used. */
  predicate Patient(exchanges: seq<Exchange>) {
    forall i | 0 <= i < |exchanges| ::
      Latest(exchanges[..i]).Some? ==> Latest(exchanges[..i]).value.refreshAfter <= exchanges[i].start
  }

  class FederatedTokenProvider {
    const refreshMargin: nat
    var cached: Option<Cached>
    ghost var exchanges: seq<Exchange>

    ghost predicate Valid()
      reads this
    {
      && cached == Latest(exchanges)
      && Patient(exchanges)
      && forall e | e in exchanges && e.fetched.Some? ::
           e.start <= e.fetched.value.refreshAfter <= e.fetched.value.expiresAt
    }

    constructor (refreshMargin: nat)
      ensures Valid() && cached.None? && exchanges == [] && this.refreshMargin == refreshMargin
    {
      this.refreshMargin := refreshMargin;
      cached, exchanges := None, [];
    }

    /**
      `current_token`, the lock held throughout. `now` is read on entry, `fetched` when an answer is in and
      `later` when a failed exchange falls back on the token in hand; the clock does not run backwards.
    */
    method CurrentToken(now: nat, answer: Answer, fetched: nat, later: nat) returns (result: Result<string, string>)
      requires Valid() && now <= fetched && now <= later
      modifies this
      ensures Valid()
      // Inside the usable window: the cached token, and no exchange.
      ensures old(cached).Some? && now < old(cached).value.refreshAfter ==>
                result == Ok(old(cached).value.token) && unchanged(this)
      // Otherwise one exchange, started now.
      ensures old(cached).None? || old(cached).value.refreshAfter <= now ==>
                |exchanges| == |old(exchanges)| + 1 && exchanges[..|old(exchanges)|] == old(exchanges)
                && exchanges[|old(exchanges)|].start == now
                && (answer.Granted? ==>
                      var lifetime := StatedLifetime(answer.expires);
                      && result == Ok(answer.token)
                      && cached == Some(Cached(answer.token, fetched + UsableLifetime(lifetime, refreshMargin), fetched + lifetime)))
                && (answer.Refused? ==> cached == old(cached))
                && (answer.Refused? ==>
                      result == if old(cached).Some? && later < old(cached).value.expiresAt
                                then Ok(old(cached).value.token) else Err(answer.error))
      // So a token returned was fetched in this call, or is unexpired when it is decided on.
      ensures result.Ok? ==>
                || (answer.Granted? && result.value == answer.token)
                || (old(cached).Some? && result.value == old(cached).value.token
                    && (now < old(cached).value.expiresAt || later < old(cached).value.expiresAt))
    {
      if cached.Some? && now < cached.value.refreshAfter {
        LatestIsAnExchange(exchanges);
        return Ok(cached.value.token);
      }
      match answer {
        case Granted(token, expires) =>
          var lifetime := StatedLifetime(expires);
          var usable := UsableLifetime(lifetime, refreshMargin);
          UsableBounds(lifetime, refreshMargin);
          var newest := Cached(token, fetched + usable, fetched + lifetime);
          PatientStep(exchanges, Exchange(now, Some(newest)));
          exchanges := exchanges + [Exchange(now, Some(newest))];
          cached := Some(newest);
          result := Ok(token);
        case Refused(error) =>
          PatientStep(exchanges, Exchange(now, None));
          exchanges := exchanges + [Exchange(now, None)];
          if cached.Some? && later < cached.value.expiresAt {
            result := Ok(cached.value.token);
          } else {
            result := Err(error);
          }
      }
    }
  }

  lemma {:induction false} LatestIsAnExchange(exchanges: seq<Exchange>)
    ensures Latest(exchanges).Some? ==> exists e | e in exchanges :: e.fetched == Latest(exchanges)
  {
    if exchanges != [] {
      LatestIsAnExchange(exchanges[..|exchanges| - 1]);
    }
  }

  lemma PatientStep(exchanges: seq<Exchange>, next: Exchange)
    requires Patient(exchanges)
    requires Latest(exchanges).Some? ==> Latest(exchanges).value.refreshAfter <= next.start
    ensures Patient(exchanges + [next])
    ensures Latest(exchanges + [next]) == if next.fetched.Some? then next.fetched else Latest(exchanges)
  {
    var all := exchanges + [next];
    assert all[..|exchanges|] == exchanges;
    forall i | 0 <= i < |all|
      ensures Latest(all[..i]).Some? ==> Latest(all[..i]).value.refreshAfter <= all[i].start
    {
      if i < |exchanges| {
        assert all[..i] == exchanges[..i];
      }
    }
  }

  /** Every exchange after one that succeeded starts once the token it brought was due for renewal. */
  lemma {:induction false} ExchangesAreSpread(exchanges: seq<Exchange>, i: nat, j: nat)
    requires Patient(exchanges) && i < j < |exchanges| && exchanges[i].fetched.Some?
    requires forall e | e in exchanges && e.fetched.Some? :: e.start <= e.fetched.value.refreshAfter
    ensures exchanges[i].fetched.value.refreshAfter <= exchanges[j].start
  {
    var k := LatestIndex(exchanges, i, j);
    assert Latest(exchanges[..j]) == exchanges[k].fetched;
    assert exchanges[k] in exchanges;
    if i < k {
      ExchangesAreSpread(exchanges, i, k);
    }
  }

  lemma {:induction false} LatestIndex(exchanges: seq<Exchange>, i: nat, j: nat) returns (k: nat)
    requires i < j <= |exchanges| && exchanges[i].fetched.Some?
    ensures i <= k < j && exchanges[k].fetched.Some? && Latest(exchanges[..j]) == exchanges[k].fetched
  {
    assert exchanges[..j][..j - 1] == exchanges[..j - 1];
    if exchanges[j - 1].fetched.Some? {
      k := j - 1;
    } else {
      k := LatestIndex(exchanges, i, j - 1);
    }
  }
}
