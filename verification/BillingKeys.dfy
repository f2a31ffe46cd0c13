/** Idempotency keys of the billing ledger and their classification by prefix. */
module BillingKeys {
  import opened Text
  import opened Decimal

  datatype Family =
    | Sms | Call | NumberRent | NumberRentPurchase | StripeEvent | StripeSession
    | WelcomeCredits | Transcription | TranscriptionBatch | Coaching

  datatype Bucket = SmsBucket | VoiceBucket | NumbersBucket | PurchaseBucket | AiBucket | OtherBucket

  function Word(f: Family): string {
    match f
    case Sms => "sms"
    case Call => "call"
    case NumberRent => "number_rent"
    case NumberRentPurchase => "number_rent_purchase"
    case StripeEvent => "stripe_evt"
    case StripeSession => "stripe_session"
    case WelcomeCredits => "welcome-credits"
    case Transcription => "transcription"
    case TranscriptionBatch => "transcription_batch"
    case Coaching => "coaching"
  }

  function Prefix(f: Family): string {
    Word(f) + ":"
  }

  // ---------- the builders ----------

  function SmsKey(sid: string): string { Prefix(Sms) + sid }

  /** One call, one key: the billing kind takes no part. */
  function CallKey(sid: string): string { Prefix(Call) + sid }

  /** The two keys a call had while the billing kind took part. */
  function LegacyCallKeys(sid: string): seq<string> {
    [Prefix(Call) + sid + ":ivr", Prefix(Call) + sid + ":staffed"]
  }

  function NumberRentalPurchaseKey(workspace: string, numberSid: string): string {
    Prefix(NumberRentPurchase) + workspace + ":" + numberSid
  }

  function NumberRentalCycleKey(numberId: nat, cycle: string): string {
    Prefix(NumberRent) + Decimal.Decimal(numberId) + ":" + cycle
  }

  function StripeSessionKey(session: string): string { Prefix(StripeSession) + session }

  function StripeEventKey(event: string): string { Prefix(StripeEvent) + event }

  function WelcomeCreditsKey(workspace: string): string { Prefix(WelcomeCredits) + workspace }

  function LiveTranscriptionKey(callSid: string): string { Prefix(Transcription) + callSid }

  function BatchTranscriptionKey(callSid: string): string { Prefix(TranscriptionBatch) + callSid }

  function CoachingCueKey(callSid: string, event: string): string {
    Prefix(Coaching) + callSid + ":" + event
  }

  /** The key is the family's prefix followed by something. */
  predicate Belongs(key: string, f: Family) {
    Prefix(f) <= key
  }

  predicate StartsWith(s: string, prefix: string) {
    prefix <= s
  }

  function BucketFromIdempotencyKey(idempotencyKey: string): Bucket {
    var key := Trim(idempotencyKey);
    if StartsWith(key, Prefix(Sms)) then SmsBucket
    else if StartsWith(key, Prefix(Call)) then VoiceBucket
    else if StartsWith(key, Prefix(NumberRent)) || StartsWith(key, Prefix(NumberRentPurchase)) then NumbersBucket
    else if StartsWith(key, Prefix(StripeEvent)) || StartsWith(key, Prefix(StripeSession)) then PurchaseBucket
    else if StartsWith(key, Prefix(Transcription)) || StartsWith(key, Prefix(TranscriptionBatch))
            || StartsWith(key, Prefix(Coaching)) then AiBucket
    else OtherBucket
  }

  function BucketOf(f: Family): Bucket {
    match f
    case Sms => SmsBucket
    case Call => VoiceBucket
    case NumberRent => NumbersBucket
    case NumberRentPurchase => NumbersBucket
    case StripeEvent => PurchaseBucket
    case StripeSession => PurchaseBucket
    case WelcomeCredits => OtherBucket
    case Transcription => AiBucket
    case TranscriptionBatch => AiBucket
    case Coaching => AiBucket
  }

  // ---------- families ----------

  predicate ColonFree(s: string) {
    forall i | 0 <= i < |s| :: s[i] != ':'
  }

  /** A colon-free piece ahead of a colon can be read back. */
  lemma CutAtColon(a: string, b: string, c: string, d: string)
    requires ColonFree(a) && ColonFree(c) && a + ":" + b == c + ":" + d
    ensures a == c && b == d
  {
    var s, t := a + ":" + b, c + ":" + d;
    assert s[|a|] == ':' && t[|c|] == ':';
    FirstColon(a, b, |c|);
    FirstColon(c, d, |a|);
    assert s[..|a|] == a && t[..|c|] == c;
    assert s[|a| + 1..] == b && t[|c| + 1..] == d;
  }

  lemma FirstColon(a: string, b: string, i: nat)
    requires ColonFree(a) && i < |a + ":" + b| && (a + ":" + b)[i] == ':'
    ensures i >= |a|
  {
    assert forall j | 0 <= j < |a| :: (a + ":" + b)[j] == a[j];
  }

  lemma WordsColonFree(f: Family)
    ensures ColonFree(Word(f)) && Word(f) != "" && !IsSpace(Word(f)[0])
  {
  }

  lemma OneWordAhead(key: string, u: string, v: string)
    requires ColonFree(u) && ColonFree(v) && u + ":" <= key && v + ":" <= key
    ensures u == v
  {
    var a, b := key[|u| + 1..], key[|v| + 1..];
    assert key == u + ":" + a && key == v + ":" + b;
    CutAtColon(u, a, v, b);
  }

  /** No key belongs to two families, whatever follows the prefixes. */
  lemma FamiliesNeverCollide(key: string, f: Family, g: Family)
    requires Belongs(key, f) && Belongs(key, g)
    ensures f == g
  {
    WordsColonFree(f);
    WordsColonFree(g);
    OneWordAhead(key, Word(f), Word(g));
    SameWord(f, g);
  }

  lemma SameWord(f: Family, g: Family)
    requires Word(f) == Word(g)
    ensures f == g
  {
    assert |Word(f)| == |Word(g)|;
  }

  /** Trimming keeps a string as far as its last visible character. */
  lemma {:induction false} TrimEndKeeps(s: string, n: nat)
    requires 0 < n <= |s| && !IsSpace(s[n - 1])
    ensures |TrimEnd(s)| >= n && TrimEnd(s)[..n] == s[..n]
    decreases |s|
  {
    if IsSpace(s[|s| - 1]) {
      TrimEndKeeps(s[..|s| - 1], n);
      assert s[..|s| - 1][..n] == s[..n];
    }
  }

  lemma TrimKeepsFamily(key: string, f: Family)
    requires Belongs(key, f)
    ensures Belongs(Trim(key), f)
  {
    WordsColonFree(f);
    var n := |Prefix(f)|;
    assert key[..n] == Prefix(f);
    assert key[0] == Word(f)[0] && key[n - 1] == ':';
    assert TrimStart(key) == key;
    TrimEndKeeps(key, n);
  }

  /** The classifier puts every key a builder makes into that family's bucket. */
  lemma BucketFollowsFamily(key: string, f: Family)
    requires Belongs(key, f)
    ensures BucketFromIdempotencyKey(key) == BucketOf(f)
  {
    TrimKeepsFamily(key, f);
    forall g: Family ensures StartsWith(Trim(key), Prefix(g)) <==> g == f {
      if StartsWith(Trim(key), Prefix(g)) {
        FamiliesNeverCollide(Trim(key), f, g);
      }
    }
  }

  /** What a ledger key is made from. */
  datatype Origin =
    | OfMessage(sid: string)
    | OfCall(sid: string)
    | OfLegacyCall(sid: string, staffed: bool)
    | OfPurchase(workspace: string, sid: string)
    | OfRentCycle(id: nat, cycle: string)
    | OfSession(session: string)
    | OfEvent(event: string)
    | OfWelcome(workspace: string)
    | OfLiveTranscript(sid: string)
    | OfBatchTranscript(sid: string)
    | OfCue(sid: string, event: string)

  function KeyOf(o: Origin): string {
    match o
    case OfMessage(sid) => SmsKey(sid)
    case OfCall(sid) => CallKey(sid)
    case OfLegacyCall(sid, staffed) => LegacyCallKeys(sid)[if staffed then 1 else 0]
    case OfPurchase(workspace, sid) => NumberRentalPurchaseKey(workspace, sid)
    case OfRentCycle(id, cycle) => NumberRentalCycleKey(id, cycle)
    case OfSession(session) => StripeSessionKey(session)
    case OfEvent(event) => StripeEventKey(event)
    case OfWelcome(workspace) => WelcomeCreditsKey(workspace)
    case OfLiveTranscript(sid) => LiveTranscriptionKey(sid)
    case OfBatchTranscript(sid) => BatchTranscriptionKey(sid)
    case OfCue(sid, event) => CoachingCueKey(sid, event)
  }

  /** The bucket the key of this origin reads as. */
  function BucketOfOrigin(o: Origin): Bucket {
    match o
    case OfMessage(_) => SmsBucket
    case OfCall(_) => VoiceBucket
    case OfLegacyCall(_, _) => VoiceBucket
    case OfPurchase(_, _) => NumbersBucket
    case OfRentCycle(_, _) => NumbersBucket
    case OfSession(_) => PurchaseBucket
    case OfEvent(_) => PurchaseBucket
    case OfWelcome(_) => OtherBucket
    case OfLiveTranscript(_) => AiBucket
    case OfBatchTranscript(_) => AiBucket
    case OfCue(_, _) => AiBucket
  }

  function FamilyOf(o: Origin): Family {
    match o
    case OfMessage(_) => Sms
    case OfCall(_) => Call
    case OfLegacyCall(_, _) => Call
    case OfPurchase(_, _) => NumberRentPurchase
    case OfRentCycle(_, _) => NumberRent
    case OfSession(_) => StripeSession
    case OfEvent(_) => StripeEvent
    case OfWelcome(_) => WelcomeCredits
    case OfLiveTranscript(_) => Transcription
    case OfBatchTranscript(_) => TranscriptionBatch
    case OfCue(_, _) => Coaching
  }

  lemma KeyBelongs(o: Origin)
    ensures Belongs(KeyOf(o), FamilyOf(o)) && BucketOf(FamilyOf(o)) == BucketOfOrigin(o)
  {
  }

  /** The classifier reads the right bucket off every builder's key, as built and as stored. */
  lemma BuildersClassified(o: Origin)
    ensures BucketFromIdempotencyKey(KeyOf(o)) == BucketOfOrigin(o)
    ensures BucketFromIdempotencyKey(Trim(KeyOf(o))) == BucketOfOrigin(o)
  {
    KeyBelongs(o);
    BucketFollowsFamily(KeyOf(o), FamilyOf(o));
    TrimKeepsFamily(KeyOf(o), FamilyOf(o));
    BucketFollowsFamily(Trim(KeyOf(o)), FamilyOf(o));
  }

  /** A key that is in no family falls into the rest. */
  lemma BucketOfStranger(key: string)
    requires forall f: Family :: !Belongs(Trim(key), f)
    ensures BucketFromIdempotencyKey(key) == OtherBucket
  {
    forall f: Family ensures !StartsWith(Trim(key), Prefix(f)) {
      assert !Belongs(Trim(key), f);
    }
  }

  lemma PrefixesSpelled()
    ensures Prefix(Sms) == "sms:" && Prefix(Call) == "call:" && Prefix(WelcomeCredits) == "welcome-credits:"
    ensures Prefix(NumberRent) == "number_rent:" && Prefix(NumberRentPurchase) == "number_rent_purchase:"
    ensures Prefix(StripeEvent) == "stripe_evt:" && Prefix(StripeSession) == "stripe_session:"
    ensures Prefix(Transcription) == "transcription:" && Prefix(TranscriptionBatch) == "transcription_batch:"
    ensures Prefix(Coaching) == "coaching:"
  {
  }

  /** How every key is spelled. */
  lemma KeysSpelled(o: Origin)
    ensures match o
      case OfMessage(sid) => KeyOf(o) == "sms:" + sid
      case OfCall(sid) => KeyOf(o) == "call:" + sid
      case OfLegacyCall(sid, staffed) => KeyOf(o) == "call:" + sid + (if staffed then ":staffed" else ":ivr")
      case OfPurchase(workspace, sid) => KeyOf(o) == "number_rent_purchase:" + workspace + ":" + sid
      case OfRentCycle(id, cycle) => KeyOf(o) == "number_rent:" + Decimal.Decimal(id) + ":" + cycle
      case OfSession(session) => KeyOf(o) == "stripe_session:" + session
      case OfEvent(event) => KeyOf(o) == "stripe_evt:" + event
      case OfWelcome(workspace) => KeyOf(o) == "welcome-credits:" + workspace
      case OfLiveTranscript(sid) => KeyOf(o) == "transcription:" + sid
      case OfBatchTranscript(sid) => KeyOf(o) == "transcription_batch:" + sid
      case OfCue(sid, event) => KeyOf(o) == "coaching:" + sid + ":" + event
  {
    PrefixesSpelled();
  }

  /** The key begins with one of the nine prefixes that are classified. */
  predicate Recognized(key: string) {
    || "sms:" <= key || "call:" <= key || "number_rent:" <= key || "number_rent_purchase:" <= key
    || "stripe_evt:" <= key || "stripe_session:" <= key
    || "transcription:" <= key || "transcription_batch:" <= key || "coaching:" <= key
  }

  /** A key falls into the rest exactly if, trimmed, it begins with none of them. */
  lemma OtherExactly(key: string)
    ensures BucketFromIdempotencyKey(key) == OtherBucket <==> !Recognized(Trim(key))
  {
    PrefixesSpelled();
  }

  // ---------- within a family ----------

  lemma CallKeyInjective(sid: string, other: string)
    requires CallKey(sid) == CallKey(other)
    ensures sid == other
  {
    assert CallKey(sid)[|Prefix(Call)|..] == sid && CallKey(other)[|Prefix(Call)|..] == other;
  }

  /** The current key of a colon-free sid is not an old-style key of any call. */
  lemma CallKeyIsNotLegacy(sid: string, other: string)
    requires ColonFree(sid)
    ensures CallKey(sid) !in LegacyCallKeys(other)
  {
    HasColon(other, "ivr");
    HasColon(other, "staffed");
    assert Prefix(Call) + other + ":ivr" == CallKey(other + ":" + "ivr");
    assert Prefix(Call) + other + ":staffed" == CallKey(other + ":" + "staffed");
    if CallKey(sid) == CallKey(other + ":" + "ivr") {
      CallKeyInjective(sid, other + ":" + "ivr");
    } else if CallKey(sid) == CallKey(other + ":" + "staffed") {
      CallKeyInjective(sid, other + ":" + "staffed");
    }
  }

  lemma HasColon(a: string, b: string)
    ensures !ColonFree(a + ":" + b)
  {
    assert (a + ":" + b)[|a|] == ':';
  }

  lemma RentalCycleKeyInjective(id: nat, cycle: string, other: nat, otherCycle: string)
    requires NumberRentalCycleKey(id, cycle) == NumberRentalCycleKey(other, otherCycle)
    ensures id == other && cycle == otherCycle
  {
    DecimalDigits(id);
    DecimalDigits(other);
    var a, b := Decimal.Decimal(id) + ":" + cycle, Decimal.Decimal(other) + ":" + otherCycle;
    assert NumberRentalCycleKey(id, cycle)[|Prefix(NumberRent)|..] == a;
    assert NumberRentalCycleKey(other, otherCycle)[|Prefix(NumberRent)|..] == b;
    CutAtColon(Decimal.Decimal(id), cycle, Decimal.Decimal(other), otherCycle);
    DecimalInjective(id, other);
  }

  lemma CoachingKeyInjective(sid: string, event: string, other: string, otherEvent: string)
    requires ColonFree(sid) && ColonFree(other)
    requires CoachingCueKey(sid, event) == CoachingCueKey(other, otherEvent)
    ensures sid == other && event == otherEvent
  {
    assert CoachingCueKey(sid, event)[|Prefix(Coaching)|..] == sid + ":" + event;
    assert CoachingCueKey(other, otherEvent)[|Prefix(Coaching)|..] == other + ":" + otherEvent;
    CutAtColon(sid, event, other, otherEvent);
  }

  lemma PurchaseKeyInjective(workspace: string, sid: string, other: string, otherSid: string)
    requires ColonFree(workspace) && ColonFree(other)
    requires NumberRentalPurchaseKey(workspace, sid) == NumberRentalPurchaseKey(other, otherSid)
    ensures workspace == other && sid == otherSid
  {
    assert NumberRentalPurchaseKey(workspace, sid)[|Prefix(NumberRentPurchase)|..] == workspace + ":" + sid;
    assert NumberRentalPurchaseKey(other, otherSid)[|Prefix(NumberRentPurchase)|..] == other + ":" + otherSid;
    CutAtColon(workspace, sid, other, otherSid);
  }
}
