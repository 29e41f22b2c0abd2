/** The signature every webhook delivery carries: printed by the sender, checked by the receiver,
    with a second one while a secret is being rotated out. */
module Signatures {
  import opened Domain
  import opened Text
  import opened Outbox

  /** A keyed digest in hex: of a secret and a message. */
  type Digest = (string, string) -> string

  predicate IsHex(c: char) {
    '0' <= c <= '9' || 'a' <= c <= 'f'
  }

  /** All that is asked of HMAC-SHA256 here: it prints as hexadecimal, and is not empty. */
  ghost predicate HexDigest(hmac: Digest) {
    forall key, message :: hmac(key, message) != [] && forall i :: 0 <= i < |hmac(key, message)| ==> IsHex(hmac(key, message)[i])
  }

  /** What is signed: the timestamp, a dot, and the exact body. */
  function Signed(timestamp: nat, body: string): string {
    Decimal(timestamp) + "." + body
  }

  const SEPARATOR := ",v1="

  function Sign(hmac: Digest, secret: string, timestamp: nat, body: string, previous: Option<string>): string {
    var signed := Signed(timestamp, body);
    "t=" + Decimal(timestamp) + SEPARATOR + hmac(secret, signed)
    + if previous.None? then "" else SEPARATOR + hmac(previous.value, signed)
  }

  // ---------------------------------------------------------------- verifying

  /** What the header's parts say, the last timestamp winning. */
  function Read(parts: seq<string>): (string, seq<string>)
  {
    if parts == [] then ("", [])
    else
      var (stamp, digests) := Read(parts[..|parts| - 1]);
      var (name, separator, value) := Partition(parts[|parts| - 1], "=");
      if separator && Strip(name) == "t" then (Strip(value), digests)
      else if separator && Strip(name) == "v1" && Strip(value) != "" then (stamp, digests + [Strip(value)])
      else (stamp, digests)
  }

  function Distance(a: int, b: int): nat {
    if a <= b then b - a else a - b
  }

  /** The digest `secret` gives, cut from a header signed anew. */
  function Expected(hmac: Digest, secret: string, timestamp: nat, body: string): string {
    Partition(Sign(hmac, secret, timestamp, body, None), SEPARATOR).2
  }

  predicate Verifies(hmac: Digest, secret: string, header: Option<string>, body: string, now: int, tolerance: int) {
    var (stamp, digests) := Read(Split(if header.Some? then header.value else "", ','));
    && stamp != "" && AllDigits(stamp) && digests != []
    && Distance(now, Number(stamp)) <= tolerance
    && Expected(hmac, secret, Number(stamp), body) in digests
  }

  /** The digits Python reads into an integer unless told otherwise; more raise a ValueError. */
  const MAX_INT_DIGITS := 4300

  /** Would reading the header's timestamp raise? It is all digits, too many of them, and the header
      carries a signature to compare. */
  predicate Unreadable(header: Option<string>) {
    var (stamp, digests) := Read(Split(if header.Some? then header.value else "", ','));
    stamp != "" && AllDigits(stamp) && digests != [] && |stamp| > MAX_INT_DIGITS
  }

  /** The characters that stand for lone surrogates, which Python does not encode; none is ASCII. */
  ghost predicate Surrogates(lone: char -> bool) {
    forall c :: c < '\U{80}' ==> !lone(c)
  }

  predicate Holds(lone: char -> bool, s: string) {
    exists i :: 0 <= i < |s| && lone(s[i])
  }

  /** Would comparing raise? The receiver's own secret cannot be encoded, or one of the header's
      signatures cannot and none before it is the expected one. */
  predicate Uncomparable(lone: char -> bool, hmac: Digest, secret: string, header: Option<string>, body: string, now: int, tolerance: int) {
    var (stamp, digests) := Read(Split(if header.Some? then header.value else "", ','));
    && stamp != "" && AllDigits(stamp) && digests != []
    && Distance(now, Number(stamp)) <= tolerance
    && (Holds(lone, secret) || Stumbles(lone, digests, Expected(hmac, secret, Number(stamp), body)))
  }

  /** A signature that cannot be encoded, and none before it the expected one. */
  predicate Stumbles(lone: char -> bool, digests: seq<string>, expected: string) {
    exists i :: 0 <= i < |digests| && Holds(lone, digests[i]) && expected !in digests[..i]
  }

  datatype Outcome = Accepted | Rejected | Raised

  function Checked(lone: char -> bool, hmac: Digest, secret: string, header: Option<string>, body: string, now: int, tolerance: int): Outcome {
    if Unreadable(header) || Uncomparable(lone, hmac, secret, header, body, now, tolerance) then Raised
    else if Verifies(hmac, secret, header, body, now, tolerance) then Accepted
    else Outcome.Rejected
  }

  /** The receiver's check: one pass over the header's parts, then over its signatures. The notes beside
      it promise an answer and never an exception; it raises for a timestamp of too many digits, and
      for a secret or a signature that cannot be encoded, if it comes to that. */
  method VerifySignature(lone: char -> bool, hmac: Digest, secret: string, header: Option<string>, body: string, now: int, tolerance: int)
    returns (outcome: Outcome)
    ensures outcome.Raised? <==> Unreadable(header) || Uncomparable(lone, hmac, secret, header, body, now, tolerance)
    ensures outcome.Accepted? <==> Verifies(hmac, secret, header, body, now, tolerance) && !outcome.Raised?
  {
    hide Split, Number, Expected, Holds;
    var stamp, digests := ReadHeader(if header.Some? then header.value else "");
    if stamp == "" || !AllDigits(stamp) || digests == [] {
      return Outcome.Rejected;
    }
    if |stamp| > MAX_INT_DIGITS {
      return Raised;
    }
    if Distance(now, Number(stamp)) > tolerance {
      return Outcome.Rejected;
    }
    if Holds(lone, secret) {
      return Raised;
    }
    outcome := Compare(lone, digests, Expected(hmac, secret, Number(stamp), body));
  }

  method ReadHeader(header: string) returns (stamp: string, digests: seq<string>)
    ensures (stamp, digests) == Read(Split(header, ','))
  {
    hide Split;
    var parts := Split(header, ',');
    stamp, digests := "", [];
    for i := 0 to |parts|
      invariant (stamp, digests) == Read(parts[..i])
    {
      var (before, separator, after) := Partition(parts[i], "=");
      var name, value := Strip(before), Strip(after);
      if separator && name == "t" {
        stamp := value;
      } else if separator && name == "v1" && value != "" {
        digests := digests + [value];
      }
      assert parts[..i + 1][..i] == parts[..i];
    }
    assert parts[..|parts|] == parts;
  }

  /** Each signature is encoded and compared in turn, until one matches. */
  method Compare(lone: char -> bool, digests: seq<string>, expected: string) returns (outcome: Outcome)
    ensures outcome.Raised? <==> Stumbles(lone, digests, expected)
    ensures outcome.Accepted? <==> expected in digests && !outcome.Raised?
  {
    hide Holds;
    for i := 0 to |digests|
      invariant expected !in digests[..i]
      invariant forall j :: 0 <= j < i ==> !Holds(lone, digests[j])
    {
      if Holds(lone, digests[i]) {
        return Raised;
      }
      if expected == digests[i] {
        return Accepted;
      }
    }
    assert digests[..|digests|] == digests;
    return Outcome.Rejected;
  }

  // ---------------------------------------------------------------- round trip

  lemma ExpectedIsDigest(hmac: Digest, secret: string, timestamp: nat, body: string)
    ensures Expected(hmac, secret, timestamp, body) == hmac(secret, Signed(timestamp, body))
  {
    DecimalIsDigits(timestamp);
    var head, digest := "t=" + Decimal(timestamp), hmac(secret, Signed(timestamp, body));
    assert ',' !in head;
    PartitionAt(head, SEPARATOR, digest);
    assert Sign(hmac, secret, timestamp, body, None) == head + SEPARATOR + digest;
  }

  /** A part `name=value` whose value holds no comma, no space and no equals sign. */
  predicate Plain(s: string) {
    forall i :: 0 <= i < |s| ==> IsHex(s[i])
  }

  lemma PlainIsUntouched(s: string)
    requires Plain(s)
    ensures Strip(s) == s && ',' !in s && '=' !in s
  {
    NothingToStrip(s);
  }

  lemma ReadStamp(stamp: string)
    requires Plain(stamp)
    ensures Read(["t=" + stamp]) == (stamp, [])
  {
    PlainIsUntouched(stamp);
    PartitionAt("t", "=", stamp);
    assert "t" + "=" + stamp == "t=" + stamp;
    assert ["t=" + stamp][..0] == [];
  }

  lemma ReadDigest(parts: seq<string>, digest: string)
    requires Plain(digest) && digest != ""
    ensures Read(parts + ["v1=" + digest]) == (Read(parts).0, Read(parts).1 + [digest])
  {
    PlainIsUntouched(digest);
    ReadValue(parts, digest);
  }

  lemma ReadValue(parts: seq<string>, digest: string)
    requires Strip(digest) == digest && digest != ""
    ensures Read(parts + ["v1=" + digest]) == (Read(parts).0, Read(parts).1 + [digest])
  {
    PartitionAt("v1", "=", digest);
    assert "v1" + "=" + digest == "v1=" + digest;
    assert (parts + ["v1=" + digest])[..|parts|] == parts;
  }

  /** The header's parts are the ones printed. */
  lemma HeaderParts(stamp: string, one: string, other: Option<string>)
    requires Plain(stamp) && Plain(one) && (other.Some? ==> Plain(other.value))
    ensures
      var header := "t=" + stamp + SEPARATOR + one + if other.None? then "" else SEPARATOR + other.value;
      Split(header, ',') == ["t=" + stamp, "v1=" + one] + if other.None? then [] else ["v1=" + other.value]
  {
    var first, second := "t=" + stamp, "v1=" + one;
    PlainIsUntouched(stamp);
    PlainIsUntouched(one);
    if other.None? {
      assert "t=" + stamp + SEPARATOR + one + "" == first + [','] + second;
      SplitFirst(first, ',', second);
      SplitNothing(second, ',');
    } else {
      PlainIsUntouched(other.value);
      var third := "v1=" + other.value;
      assert "t=" + stamp + SEPARATOR + one + (SEPARATOR + other.value) == first + [','] + (second + [','] + third);
      SplitFirst(first, ',', second + [','] + third);
      SplitFirst(second, ',', third);
      SplitNothing(third, ',');
    }
  }

  /** What a receiver reads in a header is what the sender signed. */
  lemma HeaderReadsBack(hmac: Digest, secret: string, timestamp: nat, body: string, previous: Option<string>)
    requires HexDigest(hmac)
    ensures
      var signed := Signed(timestamp, body);
      Read(Split(Sign(hmac, secret, timestamp, body, previous), ',')) ==
        (Decimal(timestamp), [hmac(secret, signed)] + if previous.None? then [] else [hmac(previous.value, signed)])
  {
    var signed, stamp := Signed(timestamp, body), Decimal(timestamp);
    DecimalIsDigits(timestamp);
    var one := hmac(secret, signed);
    var other := if previous.None? then None else Some(hmac(previous.value, signed));
    HeaderParts(stamp, one, other);
    ReadParts(stamp, one, other);
    var header := "t=" + stamp + SEPARATOR + one + if other.None? then "" else SEPARATOR + other.value;
    assert Sign(hmac, secret, timestamp, body, previous) == header;
  }

  lemma ReadParts(stamp: string, one: string, other: Option<string>)
    requires Plain(stamp) && Plain(one) && one != "" && (other.Some? ==> Plain(other.value) && other.value != "")
    ensures
      Read(["t=" + stamp, "v1=" + one] + if other.None? then [] else ["v1=" + other.value]) ==
        (stamp, [one] + if other.None? then [] else [other.value])
  {
    hide Read;
    var two := ["t=" + stamp, "v1=" + one];
    ReadStamp(stamp);
    ReadDigest(["t=" + stamp], one);
    assert two == ["t=" + stamp] + ["v1=" + one];
    assert [] + [one] == [one];
    if other.Some? {
      ReadDigest(two, other.value);
    } else {
      assert two + [] == two && [one] + [] == [one];
    }
  }

  lemma HexHoldsNone(lone: char -> bool, s: string)
    requires Surrogates(lone) && forall i :: 0 <= i < |s| ==> IsHex(s[i])
    ensures !Holds(lone, s)
  {
  }

  /** A header as signed is accepted, for a body and by a receiver's secret, exactly when its timestamp
      can be read, is near enough, and the secret can be encoded and its digest of what was received
      is one the header carries. */
  lemma AcceptedExactlyWhen(lone: char -> bool, hmac: Digest, secret: string, previous: Option<string>, timestamp: nat, body: string,
                            receiver: string, received: string, now: int, tolerance: int)
    requires HexDigest(hmac) && Surrogates(lone)
    ensures
      var digest := hmac(receiver, Signed(timestamp, received));
      var outcome := Checked(lone, hmac, receiver, Some(Sign(hmac, secret, timestamp, body, previous)), received, now, tolerance);
      && (outcome.Raised? <==>
            || |Decimal(timestamp)| > MAX_INT_DIGITS
            || (timestamp - tolerance <= now <= timestamp + tolerance && Holds(lone, receiver)))
      && (outcome.Accepted? <==>
            && |Decimal(timestamp)| <= MAX_INT_DIGITS
            && timestamp - tolerance <= now <= timestamp + tolerance
            && !Holds(lone, receiver)
            && (|| digest == hmac(secret, Signed(timestamp, body))
                || (previous.Some? && digest == hmac(previous.value, Signed(timestamp, body)))))
  {
    hide Split, Read, Sign, Expected, Decimal, Number, Holds;
    HeaderReadsBack(hmac, secret, timestamp, body, previous);
    DecimalIsDigits(timestamp);
    DecimalReadsBack(timestamp);
    ExpectedIsDigest(hmac, receiver, timestamp, received);
    HexHoldsNone(lone, hmac(secret, Signed(timestamp, body)));
    if previous.Some? {
      HexHoldsNone(lone, hmac(previous.value, Signed(timestamp, body)));
    }
  }

  /** What a receiver says to a header for its own secret, as sent. */
  function Verdict(lone: char -> bool, receiver: string, timestamp: nat, now: int, tolerance: int): Outcome {
    if |Decimal(timestamp)| > MAX_INT_DIGITS then Raised
    else if !(timestamp - tolerance <= now <= timestamp + tolerance) then Outcome.Rejected
    else if Holds(lone, receiver) then Raised
    else Accepted
  }

  /** The round trip: what was signed is accepted under either secret exactly within the tolerance,
      for every timestamp Python can read back and every secret it can encode. */
  lemma RoundTrip(lone: char -> bool, hmac: Digest, secret: string, previous: Option<string>, timestamp: nat, body: string,
                  receiver: string, now: int, tolerance: int)
    requires HexDigest(hmac) && Surrogates(lone) && (receiver == secret || previous == Some(receiver))
    ensures Checked(lone, hmac, receiver, Some(Sign(hmac, secret, timestamp, body, previous)), body, now, tolerance)
         == Verdict(lone, receiver, timestamp, now, tolerance)
  {
    hide Checked, Sign, Decimal, Holds;
    AcceptedExactlyWhen(lone, hmac, secret, previous, timestamp, body, receiver, body, now, tolerance);
  }

  /** How a header's next part is read, whatever came before: a part without an equals sign says nothing;
      with one, white space around the name and the value does not count, a `t` replaces the timestamp, a
      `v1` with a value adds a signature, and any other name says nothing. */
  lemma ReadsOnePart(parts: seq<string>, part: string)
    ensures '=' !in part ==> Read(parts + [part]) == Read(parts)
    ensures forall name: string, value: string :: part == name + "=" + value && '=' !in name ==>
      Read(parts + [part]) ==
        if Strip(name) == "t" then (Strip(value), Read(parts).1)
        else if Strip(name) == "v1" && Strip(value) != "" then (Read(parts).0, Read(parts).1 + [Strip(value)])
        else Read(parts)
  {
    assert (parts + [part])[..|parts|] == parts;
    hide Strip, Partition;
    if '=' !in part {
      PartitionNowhere(part, "=");
    }
    forall name: string, value: string | part == name + "=" + value && '=' !in name
      ensures Partition(part, "=") == (name, true, value)
    {
      PartitionAt(name, "=", value);
    }
  }

  // ---------------------------------------------------------------- what a signature covers

  /** No two messages have one digest, under whatever secrets. */
  ghost predicate NoCollisions(hmac: Digest) {
    forall key, key', message, message' :: hmac(key, message) == hmac(key', message') ==> message == message'
  }

  /** A header of this timestamp with these signatures. */
  function Header(timestamp: nat, one: string, other: Option<string>): string {
    "t=" + Decimal(timestamp) + ",v1=" + one + if other.None? then "" else ",v1=" + other.value
  }

  /** What is printed: the timestamp, and for each secret its digest of the timestamp in decimal, a dot, and
      the body. */
  lemma PrintsDigestsOfBoth(hmac: Digest, secret: string, timestamp: nat, body: string, previous: Option<string>)
    ensures
      var message := Decimal(timestamp) + "." + body;
      Sign(hmac, secret, timestamp, body, previous) ==
        Header(timestamp, hmac(secret, message), if previous.None? then None else Some(hmac(previous.value, message)))
  {
  }

  lemma StartsWithDotOrDigit(t: string, body: string)
    requires AllDigits(t)
    ensures (t + "." + body)[0] == if t == "" then '.' else t[0]
    ensures t != "" ==> IsDigit(t[0])
  {
  }

  /** A timestamp and a body are read off what is signed: digits hold no dot. */
  lemma {:induction false} MessageIsOneToOne(t: string, body: string, t': string, body': string)
    requires AllDigits(t) && AllDigits(t') && t + "." + body == t' + "." + body'
    ensures t == t' && body == body'
    decreases |t|
  {
    var m, m' := t + "." + body, t' + "." + body';
    StartsWithDotOrDigit(t, body);
    StartsWithDotOrDigit(t', body');
    if t == "" {
      assert m[1..] == body && m'[1..] == body';
    } else {
      assert m[1..] == t[1..] + "." + body && m'[1..] == t'[1..] + "." + body';
      MessageIsOneToOne(t[1..], body, t'[1..], body');
      assert t == [t[0]] + t[1..] && t' == [t'[0]] + t'[1..];
    }
  }

  lemma SameMessage(t: nat, body: string, t': nat, body': string)
    ensures Decimal(t) + "." + body == Decimal(t') + "." + body' <==> t == t' && body == body'
  {
    hide Decimal, Number;
    DecimalIsDigits(t);
    DecimalIsDigits(t');
    DecimalReadsBack(t);
    DecimalReadsBack(t');
    if Decimal(t) + "." + body == Decimal(t') + "." + body' {
      MessageIsOneToOne(Decimal(t), body, Decimal(t'), body');
    }
  }

  lemma HeaderReads(timestamp: nat, one: string, other: Option<string>)
    requires Plain(one) && one != "" && (other.Some? ==> Plain(other.value) && other.value != "")
    ensures Read(Split(Header(timestamp, one, other), ',')) ==
      (Decimal(timestamp), [one] + if other.None? then [] else [other.value])
  {
    hide Read, Split, Decimal;
    DecimalIsDigits(timestamp);
    HeaderParts(Decimal(timestamp), one, other);
    ReadParts(Decimal(timestamp), one, other);
    assert Header(timestamp, one, other) ==
      "t=" + Decimal(timestamp) + SEPARATOR + one + if other.None? then "" else SEPARATOR + other.value;
  }

  /** The signatures of a body at one time, put under any timestamp with any body: a receiver with a secret
      that signed them accepts exactly the body and the time they were made for, within the tolerance. */
  lemma CoversTimeAndBody(lone: char -> bool, hmac: Digest, secret: string, previous: Option<string>, timestamp: nat, body: string,
                          stamped: nat, received: string, receiver: string, now: int, tolerance: int)
    requires HexDigest(hmac) && NoCollisions(hmac) && Surrogates(lone) && (receiver == secret || previous == Some(receiver))
    ensures
      var message := Decimal(timestamp) + "." + body;
      var header := Header(stamped, hmac(secret, message), if previous.None? then None else Some(hmac(previous.value, message)));
      Checked(lone, hmac, receiver, Some(header), received, now, tolerance) == Accepted <==>
        && stamped == timestamp && received == body
        && |Decimal(stamped)| <= MAX_INT_DIGITS && stamped - tolerance <= now <= stamped + tolerance && !Holds(lone, receiver)
  {
    hide Split, Read, Sign, Header, Expected, Decimal, Number, Holds;
    var message := Decimal(timestamp) + "." + body;
    var one, other := hmac(secret, message), if previous.None? then None else Some(hmac(previous.value, message));
    HeaderReads(stamped, one, other);
    DecimalIsDigits(stamped);
    DecimalReadsBack(stamped);
    ExpectedIsDigest(hmac, receiver, stamped, received);
    SameMessage(stamped, received, timestamp, body);
    HexHoldsNone(lone, one);
    if other.Some? {
      HexHoldsNone(lone, other.value);
    }
    assert Signed(stamped, received) == Decimal(stamped) + "." + received;
  }

  function Ones(n: nat): string {
    seq(n, _ => '1')
  }

  /** A header anyone can send: 4301 ones for a timestamp, and any signature. */
  lemma LongTimestampRaises(lone: char -> bool, hmac: Digest, secret: string, body: string, now: int, tolerance: int)
    ensures Checked(lone, hmac, secret, Some("t=" + Ones(4301) + ",v1=0"), body, now, tolerance) == Raised
  {
    var stamp, header := Ones(4301), "t=" + Ones(4301) + ",v1=0";
    assert AllDigits(stamp) && |stamp| == 4301;
    HeaderParts(stamp, "0", None);
    ReadParts(stamp, "0", None);
    assert "t=" + stamp + SEPARATOR + "0" + "" == header;
    assert Read(Split(header, ',')) == (stamp, ["0"]) by {
      assert ["0"] + [] == ["0"];
    }
  }

  lemma ReadLone(c: char)
    requires !IsSpace(c) && c >= '\U{80}'
    ensures Read(Split("t=100,v1=" + [c], ',')) == ("100", [[c]])
  {
    hide Read;
    assert "t=100,v1=" + [c] == "t=100" + [','] + ("v1=" + [c]);
    assert ',' !in "t=100" && ',' !in "v1=" + [c];
    SplitFirst("t=100", ',', "v1=" + [c]);
    SplitNothing("v1=" + [c], ',');
    assert "t=" + "100" == "t=100";
    ReadStamp("100");
    NothingToStrip([c]);
    ReadValue(["t=100"], [c]);
    assert [] + [[c]] == [[c]];
    assert ["t=100"] + ["v1=" + [c]] == ["t=100", "v1=" + [c]];
  }

  lemma HundredReads()
    ensures AllDigits("100") && Number("100") == 100
  {
    assert "100"[..2] == "10" && "10"[..1] == "1" && "1"[..0] == "";
    assert Number("1") == 1 && Number("10") == 10;
  }

  /** Another: a signature of one character that cannot be encoded, in time. */
  lemma LoneSurrogateRaises(lone: char -> bool, hmac: Digest, secret: string, body: string, c: char)
    requires Surrogates(lone) && lone(c) && !IsSpace(c)
    ensures Checked(lone, hmac, secret, Some("t=100,v1=" + [c]), body, 100, 300) == Raised
  {
    hide Read, Split, Number, Expected;
    ReadLone(c);
    HundredReads();
    assert [[c]][0] == [c] && [c][0] == c && [[c]][..0] == [];
    assert Holds(lone, [[c]][0]);
    assert Stumbles(lone, [[c]], Expected(hmac, secret, 100, body));
  }

  // ---------------------------------------------------------------- rotation

  /** One rotation: the new secret, its overlap, and when. */
  datatype Rotation = Rotation(secret: string, overlap: Time, now: Time)

  function RotatedAll(h: Hook, rotations: seq<Rotation>): Hook {
    if rotations == [] then h
    else
      var last := rotations[|rotations| - 1];
      Rotated(RotatedAll(h, rotations[..|rotations| - 1]), last.secret, last.overlap, last.now)
  }

  /** Through any rotations: a delivery held before the overlap is over is signed so that receivers
      with the current secret and with the one just replaced both accept it, on the same terms; one
      held later is signed with the current secret alone. */
  lemma RotationKeepsVerifying(lone: char -> bool, hmac: Digest, box: Box, id: DeliveryId, before: Hook, rotations: seq<Rotation>,
                               heldAt: Time, timestamp: nat, body: string, now: int, tolerance: int)
    requires HexDigest(hmac) && Surrogates(lone) && rotations != []
    requires id in box.rows && id.hook in box.hooks && box.hooks[id.hook] == RotatedAll(before, rotations)
    ensures
      var last := rotations[|rotations| - 1];
      var replaced := RotatedAll(before, rotations[..|rotations| - 1]).secret;
      var held := Hold(box, id, heldAt);
      var header := Some(Sign(hmac, held.secret, timestamp, body, held.previous));
      && held.secret == last.secret
      && Checked(lone, hmac, last.secret, header, body, now, tolerance) == Verdict(lone, last.secret, timestamp, now, tolerance)
      && (heldAt < last.now + last.overlap ==>
            Checked(lone, hmac, replaced, header, body, now, tolerance) == Verdict(lone, replaced, timestamp, now, tolerance))
      && (heldAt >= last.now + last.overlap ==> held.previous.None?)
  {
    var last := rotations[|rotations| - 1];
    var replaced := RotatedAll(before, rotations[..|rotations| - 1]).secret;
    var held := Hold(box, id, heldAt);
    RoundTrip(lone, hmac, held.secret, held.previous, timestamp, body, last.secret, now, tolerance);
    if heldAt < last.now + last.overlap {
      RoundTrip(lone, hmac, held.secret, held.previous, timestamp, body, replaced, now, tolerance);
    }
  }
}
