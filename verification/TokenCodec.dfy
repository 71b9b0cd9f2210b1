/** The `user:device:created` value of a refresh token (src/auth/backend.py) and the string
    comparison that decides whether a token predates a revocation. */
module TokenCodec {
  import opened Wrappers
  import opened Text
  import opened IsoTime
  import opened IsoShape

  /** `device_info or 'unknown'`. */
  function DeviceText(device: Option<string>): (s: string)
    ensures |s| > 0
  {
    if device.None? || device.value == "" then "unknown" else device.value
  }

  predicate ColonFree(device: Option<string>) {
    ':' !in DeviceText(device)
  }

  function Encode(userId: int, device: Option<string>, created: int): (s: string)
    requires IsInstant(created)
    ensures |s| > 0
  {
    IntText(userId) + ":" + DeviceText(device) + ":" + IsoFormat(created)
  }

  lemma EncodeText(userId: int, device: Option<string>, created: int)
    requires IsInstant(created)
    ensures Encode(userId, device, created)
         == IntText(userId) + ":" + (if device == None || device == Some("") then "unknown" else device.value) + ":" + IsoFormat(created)
  {
  }

  /** The parts `verify_refresh_token` uses; None where the code would raise. */
  function Decode(value: string): Option<(int, string)> {
    var parts := Split(value, ':', 2);
    var userId := ParseInt(parts[0]);
    if userId.None? || |parts| < 3 then None else Some((userId.value, parts[2]))
  }

  /** The text that verification takes for the creation time. */
  function StampText(device: Option<string>, created: int): string
    requires IsInstant(created)
  {
    AfterColon(DeviceText(device), IsoFormat(created))
  }

  /** What follows the first colon of `d`, in front of `rest`; only `rest` when there is none. */
  function AfterColon(d: string, rest: string): string {
    if ':' in d then d[IndexOf(d, ':') + 1..] + ":" + rest else rest
  }

  lemma Regroup(a: string, b: string, rest: string)
    ensures (a + [':'] + b) + [':'] + rest == a + [':'] + (b + ":" + rest)
  {
  }

  lemma RegroupRight(a: string, b: string, rest: string)
    ensures a + ":" + b + ":" + rest == a + [':'] + (b + [':'] + rest)
  {
  }

  lemma LastPiece(head: string, rest: string)
    requires ':' !in head
    ensures Split(head + [':'] + rest, ':', 1) == [head, rest]
  {
    SplitHead(head, ':', rest, 1);
    assert Split(rest, ':', 0) == [rest];
  }

  lemma SplitDevice(d: string, rest: string)
    ensures |Split(d + [':'] + rest, ':', 1)| == 2
    ensures Split(d + [':'] + rest, ':', 1)[1] == AfterColon(d, rest)
  {
    if ':' in d {
      var i := IndexOf(d, ':');
      var head, tail := d[..i], d[i + 1..];
      CutAt(d, ':');
      Regroup(head, tail, rest);
      LastPiece(head, tail + ":" + rest);
    } else {
      LastPiece(d, rest);
    }
  }

  lemma DecodeParts(userId: int, d: string, rest: string)
    ensures Decode(IntText(userId) + ":" + d + ":" + rest) == Some((userId, AfterColon(d, rest)))
  {
    var id, tail := IntText(userId), d + [':'] + rest;
    RegroupRight(id, d, rest);
    SplitHead(id, ':', tail, 2);
    SplitDevice(d, rest);
    ParseIntText(userId);
  }

  /** The id always comes back; the third part is the device's text after its first colon, if
      it has one, in front of the timestamp. */
  lemma DecodeEncode(userId: int, device: Option<string>, created: int)
    requires IsInstant(created)
    ensures Decode(Encode(userId, device, created)) == Some((userId, StampText(device, created)))
    ensures StampText(device, created) == IsoFormat(created) <==> ColonFree(device)
  {
    DecodeParts(userId, DeviceText(device), IsoFormat(created));
    if !ColonFree(device) {
      assert |StampText(device, created)| > |IsoFormat(created)|;
    }
  }

  /** What is stored, in terms of the text that the caller passed. */
  lemma EncodeSplits(userId: int, d: string, created: int)
    requires IsInstant(created)
    ensures d != "" ==> Split(Encode(userId, Some(d), created), ':', 1) == [IntText(userId), d + ":" + IsoFormat(created)]
    ensures Split(Encode(userId, None, created), ':', 1) == [IntText(userId), "unknown:" + IsoFormat(created)]
    ensures Encode(userId, Some(""), created) == Encode(userId, None, created)
  {
    SplitTwo(userId, "unknown", IsoFormat(created));
    assert "unknown" + ":" == "unknown:";
    SplitTwo(userId, d, IsoFormat(created));
  }

  lemma SplitTwo(userId: int, d: string, rest: string)
    ensures Split(IntText(userId) + ":" + d + ":" + rest, ':', 1) == [IntText(userId), d + ":" + rest]
  {
    var id, tail := IntText(userId), d + [':'] + rest;
    RegroupRight(id, d, rest);
    LastPiece(id, tail);
  }

  /** Only a text with a colon is not free of colons. */
  lemma ColonFreeMeans(device: Option<string>)
    ensures ColonFree(device) <==> device.None? || ':' !in device.value
  {
  }

  /** A device text with a colon leaves what follows its first colon in front of the timestamp. */
  lemma StampOfColonDevice(head: string, tail: string, created: int)
    requires ':' !in head && IsInstant(created)
    ensures StampText(Some(head + ":" + tail), created) == tail + ":" + IsoFormat(created)
  {
    var d := head + ":" + tail;
    LastPiece(head, tail);
    assert d[|head|] == ':';
    assert Split(d[IndexOf(d, ':') + 1..], ':', 0) == [d[IndexOf(d, ':') + 1..]];
  }

  lemma DecodeJoined(id: string, device: string, created: string)
    requires ':' !in id && ':' !in device
    ensures Decode(id + [':'] + (device + [':'] + created))
         == if ParseInt(id).None? then None else Some((ParseInt(id).value, created))
  {
    SplitHead(id, ':', device + [':'] + created, 2);
    LastPiece(device, created);
  }

  lemma DecodeParted(value: string) returns (id: string, device: string)
    requires Decode(value).Some?
    ensures ':' !in id && ':' !in device && ParseInt(id) == Some(Decode(value).value.0)
    ensures value == id + [':'] + (device + [':'] + Decode(value).value.1)
  {
    var rest, last;
    id, rest := SplitOff(value, 1);
    device, last := SplitOff(rest, 0);
    DecodeJoined(id, device, last);
  }

  /** `value` is an id, a colon, a text without colons, a colon, and `created`. */
  ghost predicate Composed(value: string, userId: int, created: string) {
    exists id, device :: ':' !in id && ':' !in device && ParseInt(id) == Some(userId)
      && value == id + [':'] + (device + [':'] + created)
  }

  /** A stored value is understood exactly when it has two colons and a number before the first;
      the creation time is all that follows the second. */
  lemma DecodeExactly(value: string, userId: int, created: string)
    ensures Decode(value) == Some((userId, created)) <==> Composed(value, userId, created)
  {
    if Composed(value, userId, created) {
      var id, device :| ':' !in id && ':' !in device && ParseInt(id) == Some(userId)
        && value == id + [':'] + (device + [':'] + created);
      DecodeJoined(id, device, created);
    }
    if Decode(value).Some? {
      var id, device := DecodeParted(value);
    }
  }

  lemma SplitOff(s: string, maxsplit: nat) returns (head: string, rest: string)
    requires |Split(s, ':', maxsplit + 1)| > 1
    ensures ':' !in head && s == head + [':'] + rest
    ensures Split(s, ':', maxsplit + 1) == [head] + Split(rest, ':', maxsplit)
  {
    var i := IndexOf(s, ':');
    head, rest := s[..i], s[i + 1..];
    CutAt(s, ':');
  }

  // ---- What a colon does to the comparison ----------------------------------------------

  /** Against a text that has a non-digit, or ends, in third place, two texts with the same first
      two characters and a digit in third place compare alike. */
  lemma ThirdPlaceDecides(x: string, y: string, rest: string)
    requires |x| >= 3 && |y| >= 3 && x[..2] == y[..2] && IsDigit(x[2]) && IsDigit(y[2])
    requires |rest| >= 2 && (|rest| == 2 || !IsDigit(rest[2]))
    ensures Less(x, rest) == Less(y, rest)
  {
    var head, tail := rest[..2], rest[2..];
    LessByHead(x[..2], head, x[2..], tail);
    LessByHead(y[..2], head, y[2..], tail);
    assert x == x[..2] + x[2..] && y == y[..2] + y[2..] && rest == head + tail;
  }

  /** A prefix shared by the left sides hides what follows it, unless the right side starts with
      it too. */
  lemma PrefixHides(p: string, x: string, y: string, r: string)
    requires p <= r ==> Less(x, r[|p|..]) == Less(y, r[|p|..])
    ensures Less(p + x, r) == Less(p + y, r)
  {
    if |p| <= |r| {
      var head, tail := r[..|p|], r[|p|..];
      assert r == head + tail;
      LessByHead(p, head, x, tail);
      LessByHead(p, head, y, tail);
    } else {
      var front, back := p[..|r|], p[|r|..];
      assert p + x == front + (back + x) && p + y == front + (back + y) && r == r + "";
      LessByHead(front, r, back + x, "");
      LessByHead(front, r, back + y, "");
    }
  }

  /** For a device with a colon the comparison ignores the creation time within its century. */
  lemma CreationTimeIsIgnored(device: Option<string>, c: int, d: int, r: int)
    requires !ColonFree(device) && IsInstant(c) && IsInstant(d) && IsInstant(r) && SameCentury(c, d)
    ensures Less(StampText(device, c), IsoFormat(r)) == Less(StampText(device, d), IsoFormat(r))
  {
    var text := DeviceText(device);
    var p := text[IndexOf(text, ':') + 1..] + ":";
    IsoStart(c);
    IsoStart(d);
    IsoIsShaped(r);
    StampsCompareAlike(p, IsoFormat(c), IsoFormat(d), IsoFormat(r));
  }

  lemma StampsCompareAlike(p: string, x: string, y: string, r: string)
    requires p != "" && p[|p| - 1] == ':' && ColonsShaped(r)
    requires |x| >= 3 && |y| >= 3 && x[..2] == y[..2] && IsDigit(x[2]) && IsDigit(y[2])
    ensures Less(p + x, r) == Less(p + y, r)
  {
    if p <= r {
      assert r[|p| - 1] == ':';
      ThirdPlaceDecides(x, y, r[|p|..]);
    }
    PrefixHides(p, x, y, r);
  }

  /** The comparison gets the pair of a creation time and a revocation time right. */
  ghost predicate Judged(device: Option<string>, c: int, r: int)
    requires IsInstant(c) && IsInstant(r)
  {
    Less(StampText(device, c), IsoFormat(r)) <==> c < r
  }

  /** For a device with a colon, and any two instants of one century, exactly one of a token made
      at the earlier and a token made at the later is misjudged against a revocation at the later. */
  lemma ColonMisjudges(device: Option<string>, c: int, r: int)
    requires !ColonFree(device) && IsInstant(c) && IsInstant(r) && c < r && SameCentury(c, r)
    ensures Judged(device, c, r) <==> !Judged(device, r, r)
  {
    CreationTimeIsIgnored(device, c, r, r);
  }

  lemma ColonFreeJudges(device: Option<string>, c: int, r: int)
    requires ColonFree(device) && IsInstant(c) && IsInstant(r)
    ensures Judged(device, c, r)
  {
    StringOrderIsTimeOrder(c, r);
  }

  /** In any window of time that holds two instants of one century the revocation test is the
      chronological test for exactly the devices without a colon. */
  lemma RevocationTestIsChronological(device: Option<string>, lo: int, hi: int, c: int, r: int)
    requires IsInstant(lo) && IsInstant(hi) && lo <= c < r <= hi && SameCentury(c, r)
    ensures (forall x, y | lo <= x <= hi && lo <= y <= hi :: Judged(device, x, y)) <==> ColonFree(device)
  {
    if ColonFree(device) {
      forall x, y | lo <= x <= hi && lo <= y <= hi ensures Judged(device, x, y) {
        ColonFreeJudges(device, x, y);
      }
    } else {
      ColonMisjudges(device, c, r);
    }
  }
}
