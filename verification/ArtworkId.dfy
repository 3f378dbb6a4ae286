/** Artwork ids as text: printing and parsing, with the nested ids of discs. */
module ArtworkId {
  import opened Wrappers

  datatype Kind = MediaFileArt | ArtistArt | AlbumArt | PlaylistArt | DiscArt | RadioArt

  /** The time of the last update in seconds since 1970; the zero time is long before. */
  datatype ArtworkID = ArtworkID(kind: Kind, id: string, lastUpdate: int)

  const ZERO_TIME := -62_135_596_800
  const MAX_INT64 := 0x7FFF_FFFF_FFFF_FFFF

  function Prefix(k: Kind): string {
    match k
    case MediaFileArt => "mf"
    case ArtistArt => "ar"
    case AlbumArt => "al"
    case PlaylistArt => "pl"
    case DiscArt => "dc"
    case RadioArt => "ra"
  }

  function KindOf(prefix: string): Result<Kind> {
    if prefix == "mf" then Ok(MediaFileArt)
    else if prefix == "ar" then Ok(ArtistArt)
    else if prefix == "al" then Ok(AlbumArt)
    else if prefix == "pl" then Ok(PlaylistArt)
    else if prefix == "dc" then Ok(DiscArt)
    else if prefix == "ra" then Ok(RadioArt)
    else Err("invalid artwork kind")
  }

  // ----- Numerals -----

  function Digit(d: nat): char
    requires d < 16
  {
    "0123456789abcdef"[d]
  }

  function Value(c: char): nat {
    if '0' <= c <= '9' then (c - '0') as nat
    else if 'a' <= c <= 'f' then 10 + (c - 'a') as nat
    else if 'A' <= c <= 'F' then 10 + (c - 'A') as nat
    else 16
  }

  /** The shortest numeral of a number. */
  function Numeral(n: nat, base: nat): (s: string)
    requires 2 <= base <= 16
    ensures s != ""
    decreases n
  {
    if n < base then [Digit(n)] else Numeral(n / base, base) + [Digit(n % base)]
  }

  function Signed(n: int, base: nat): string
    requires 2 <= base <= 16
  {
    if n < 0 then "-" + Numeral(-n, base) else Numeral(n, base)
  }

  /** The number that a run of digits stands for. */
  function Digits(s: string, base: nat): Result<nat>
    requires 2 <= base <= 16
  {
    if s == "" then Ok(0)
    else
      var high, low := Digits(s[..|s| - 1], base), Value(s[|s| - 1]);
      if high.Ok? && low < base then Ok(high.value * base + low) else Err("invalid syntax")
  }

  /** A number with an optional sign that fits into 64 bits. */
  function ParseInt(s: string, base: nat): Result<int>
    requires 2 <= base <= 16
  {
    var digits := if s != "" && (s[0] == '+' || s[0] == '-') then s[1..] else s;
    var n := Digits(digits, base);
    if digits == "" || n.Err? then Err("invalid syntax")
    else if s[0] == '-' then if n.value <= MAX_INT64 + 1 then Ok(-(n.value as int)) else Err("value out of range")
    else if n.value <= MAX_INT64 then Ok(n.value) else Err("value out of range")
  }

  lemma ValueOfDigit(d: nat)
    requires d < 16
    ensures Value(Digit(d)) == d
  {
  }

  lemma DigitsAppend(s: string, d: nat, base: nat)
    requires 2 <= base <= 16 && d < base && Digits(s, base).Ok?
    ensures Digits(s + [Digit(d)], base) == Ok(Digits(s, base).value * base + d)
  {
    assert (s + [Digit(d)])[..|s|] == s;
    ValueOfDigit(d);
  }

  lemma {:induction false} DigitsOfNumeral(n: nat, base: nat)
    requires 2 <= base <= 16
    ensures Digits(Numeral(n, base), base) == Ok(n)
    decreases n
  {
    if n < base {
      DigitsAppend("", n, base);
      assert "" + [Digit(n)] == [Digit(n)];
    } else {
      var high, low := n / base, n % base;
      DivMod(n, base, high, low);
      DigitsOfNumeral(high, base);
      DigitsAppend(Numeral(high, base), low, base);
    }
  }

  lemma DivMod(n: nat, base: nat, high: nat, low: nat)
    requires 2 <= base <= n && high == n / base && low == n % base
    ensures high * base + low == n && high < n && low < base
  {
  }

  lemma OneMoreDigit(high: string, d: nat)
    requires d < 16 && forall c :: c in high ==> Value(c) < 16
    ensures forall c :: c in high + [Digit(d)] ==> Value(c) < 16
  {
    ValueOfDigit(d);
    assert forall c :: c in high + [Digit(d)] ==> c in high || c == Digit(d);
  }

  lemma {:induction false} NumeralIsPlain(n: nat, base: nat)
    requires 2 <= base <= 16
    ensures forall c :: c in Numeral(n, base) ==> Value(c) < 16
    decreases n
  {
    if n >= base {
      DivMod(n, base, n / base, n % base);
      NumeralIsPlain(n / base, base);
      OneMoreDigit(Numeral(n / base, base), n % base);
    } else {
      OneMoreDigit("", n);
      assert "" + [Digit(n)] == [Digit(n)];
    }
  }

  lemma {:induction false} NotDigits(s: string, base: nat, c: char)
    requires 2 <= base <= 16 && c in s && Value(c) == 16
    ensures Digits(s, base).Err?
  {
    if s[|s| - 1] != c {
      NotDigits(s[..|s| - 1], base, c);
    }
  }

  /** Parsing inverts printing, in any base. */
  lemma IntRoundTrip(n: int, base: nat)
    requires 2 <= base <= 16 && -MAX_INT64 - 1 <= n <= MAX_INT64
    ensures ParseInt(Signed(n, base), base) == Ok(n)
  {
    var size := if n < 0 then -n else n;
    var digits := Numeral(size, base);
    DigitsOfNumeral(size, base);
    NumeralIsPlain(size, base);
    assert digits[0] in digits;
    assert ("-" + digits)[1..] == digits;
  }

  // ----- Cutting -----

  /** The first place of a separator, or the length. */
  function IndexOf(s: string, c: char): (i: nat)
    ensures i <= |s| && (i < |s| ==> s[i] == c) && forall k :: 0 <= k < i ==> s[k] != c
  {
    if s == "" || s[0] == c then 0 else 1 + IndexOf(s[1..], c)
  }

  /** What comes before and after the first separator. */
  function Cut(s: string, c: char): Result<(string, string)> {
    var i := IndexOf(s, c);
    if i == |s| then Err("not found") else Ok((s[..i], s[i + 1..]))
  }

  lemma CutAt(a: string, c: char, b: string)
    requires c !in a
    ensures Cut(a + [c] + b, c) == Ok((a, b))
  {
    var s := a + [c] + b;
    assert s[|a|] == c && forall k :: 0 <= k < |a| ==> s[k] == a[k];
    assert IndexOf(s, c) == |a|;
    assert s[..|a|] == a && s[|a| + 1..] == b;
  }

  /** A separator in the first part is found first, and the second stays in what is left. */
  lemma CutEarlier(a: string, c: char, b: string)
    requires c in a
    ensures var r := Cut(a + [c] + b, c); r.Ok? && r.value.0 != a && c in r.value.1
  {
    var s, i := a + [c] + b, IndexOf(a, c);
    assert s[i] == c && forall k :: 0 <= k < i ==> s[k] == a[k];
    assert IndexOf(s, c) == i;
    assert s[i + 1..][|a| - i - 1] == c;
  }

  // ----- Artwork ids -----

  function String(a: ArtworkID): string {
    if a.id == "" then ""
    else if a.lastUpdate > 0 then Prefix(a.kind) + "-" + a.id + "_" + Numeral(a.lastUpdate, 16)
    else Prefix(a.kind) + "-" + a.id + "_0"
  }

  function Parse(s: string): Result<ArtworkID> {
    var parts := Cut(s, '-');
    if parts.Err? then Err("invalid artwork id")
    else
      var kind := KindOf(parts.value.0);
      if kind.Err? then Err(kind.message) else ParseRest(kind.value, parts.value.1)
  }

  /** What a round trip keeps of the time: nothing before 1970 or at its first second. */
  function Kept(lastUpdate: int): int {
    if lastUpdate > 0 then lastUpdate else ZERO_TIME
  }

  /** An id comes back exactly when it is not empty and has no underscore. */
  lemma RoundTripExact(a: ArtworkID)
    requires a.lastUpdate <= MAX_INT64
    ensures Parse(String(a)) == Ok(a.(lastUpdate := Kept(a.lastUpdate))) <==> a.id != "" && '_' !in a.id
    ensures Parse(String(a)).Ok? <==> a.id != "" && '_' !in a.id
  {
    if a.id != "" {
      var suffix := if a.lastUpdate > 0 then Numeral(a.lastUpdate, 16) else "0";
      var rest := a.id + "_" + suffix;
      assert String(a) == Prefix(a.kind) + "-" + rest;
      PrefixRead(a.kind, rest);
      if '_' in a.id {
        CutEarlier(a.id, '_', suffix);
        Underscored(Cut(rest, '_').value.1);
      } else {
        CutAt(a.id, '_', suffix);
        StampRoundTrip(a.lastUpdate);
      }
    }
  }

  function ParseRest(kind: Kind, rest: string): Result<ArtworkID> {
    var stamped := Cut(rest, '_');
    if stamped.Err? then Ok(ArtworkID(kind, rest, ZERO_TIME))
    else if stamped.value.1 == "0" then Ok(ArtworkID(kind, stamped.value.0, ZERO_TIME))
    else
      var time := ParseInt(stamped.value.1, 16);
      if time.Err? then Err(time.message) else Ok(ArtworkID(kind, stamped.value.0, time.value))
  }

  lemma PrefixRead(kind: Kind, rest: string)
    ensures Parse(Prefix(kind) + "-" + rest) == ParseRest(kind, rest)
  {
    CutAt(Prefix(kind), '-', rest);
    assert KindOf(Prefix(kind)) == Ok(kind);
  }

  lemma Underscored(s: string)
    requires '_' in s
    ensures ParseInt(s, 16).Err? && s != "0"
  {
    if s[0] != '_' {
      assert '_' in s[1..];
    }
    var digits := if s[0] == '+' || s[0] == '-' then s[1..] else s;
    NotDigits(digits, 16, '_');
  }

  lemma StampRoundTrip(lastUpdate: int)
    requires lastUpdate <= MAX_INT64
    ensures lastUpdate > 0 ==> Numeral(lastUpdate, 16) != "0" && ParseInt(Numeral(lastUpdate, 16), 16) == Ok(lastUpdate)
  {
    if lastUpdate > 0 {
      IntRoundTrip(lastUpdate, 16);
      DigitsOfNumeral(0, 16);
      DigitsOfNumeral(lastUpdate, 16);
      assert Numeral(0, 16) == "0";
    }
  }

  /** The text of each kind. */
  predicate IsPrefix(prefix: string, kind: Kind) {
    || (prefix == "mf" && kind == MediaFileArt) || (prefix == "ar" && kind == ArtistArt)
    || (prefix == "al" && kind == AlbumArt) || (prefix == "pl" && kind == PlaylistArt)
    || (prefix == "dc" && kind == DiscArt) || (prefix == "ra" && kind == RadioArt)
  }

  lemma PrefixExact(prefix: string, kind: Kind)
    ensures IsPrefix(prefix, kind) <==> prefix == Prefix(kind)
    ensures IsPrefix(prefix, kind) <==> KindOf(prefix) == Ok(kind)
  {
  }

  lemma BareForm(kind: Kind, id: string)
    requires '_' !in id
    ensures Parse(Prefix(kind) + "-" + id) == Ok(ArtworkID(kind, id, ZERO_TIME))
  {
    PrefixRead(kind, id);
    assert IndexOf(id, '_') == |id|;
  }

  lemma StampedForm(kind: Kind, id: string, stamp: string)
    requires '_' !in id
    ensures Parse(Prefix(kind) + "-" + (id + "_" + stamp)) ==
            if stamp == "0" then Ok(ArtworkID(kind, id, ZERO_TIME))
            else if ParseInt(stamp, 16).Ok? then Ok(ArtworkID(kind, id, ParseInt(stamp, 16).value))
            else Err(ParseInt(stamp, 16).message)
  {
    PrefixRead(kind, id + "_" + stamp);
    CutAt(id, '_', stamp);
  }

  /** The forms of an id without underscore: bare, never updated, or with its time in hexadecimal digits of either case. */
  lemma FormsExact(prefix: string, kind: Kind, id: string, stamp: string)
    requires IsPrefix(prefix, kind) && '_' !in id
    ensures Parse(prefix + "-" + id) == Ok(ArtworkID(kind, id, ZERO_TIME))
    ensures Parse(prefix + "-" + (id + "_" + stamp)) ==
            if stamp == "0" then Ok(ArtworkID(kind, id, ZERO_TIME))
            else if ParseInt(stamp, 16).Ok? then Ok(ArtworkID(kind, id, ParseInt(stamp, 16).value))
            else Err(ParseInt(stamp, 16).message)
  {
    PrefixExact(prefix, kind);
    BareForm(kind, id);
    StampedForm(kind, id, stamp);
  }

  /** How an id is printed. */
  lemma PrintedForm(prefix: string, kind: Kind, id: string, time: int)
    requires IsPrefix(prefix, kind)
    ensures String(ArtworkID(kind, id, time)) ==
            if id == "" then "" else prefix + "-" + id + "_" + if time > 0 then Numeral(time, 16) else "0"
  {
    PrefixExact(prefix, kind);
  }

  lemma CutExact(s: string, c: char)
    requires Cut(s, c).Ok?
    ensures s == Cut(s, c).value.0 + [c] + Cut(s, c).value.1 && c !in Cut(s, c).value.0
  {
    var i := IndexOf(s, c);
    assert s == s[..i] + [s[i]] + s[i + 1..];
  }

  lemma RestKeepsKind(kind: Kind, rest: string)
    ensures ParseRest(kind, rest).Ok? ==> ParseRest(kind, rest).value.kind == kind
  {
  }

  /** Nothing else is an id: what is parsed starts with a known prefix and a dash. */
  lemma ParseNeedsPrefix(s: string)
    requires Parse(s).Ok?
    ensures exists prefix, rest :: s == prefix + "-" + rest && IsPrefix(prefix, Parse(s).value.kind)
  {
    CutExact(s, '-');
    var (prefix, rest) := Cut(s, '-').value;
    var kind := KindOf(prefix).value;
    PrefixExact(prefix, kind);
    RestKeepsKind(kind, rest);
    assert s == prefix + "-" + rest;
  }

  /** Digits count by their places, and letters alike in both cases. */
  lemma HexWitness()
    ensures Numeral(0x1a, 16) == "1a"
    ensures Digits("1a", 16) == Digits("1A", 16) == Ok(0x1a)
  {
    assert Numeral(1, 16) == "1";
    assert "1a"[..1] == "1" && "1A"[..1] == "1" && "1"[..0] == "";
    assert Digits("1", 16) == Ok(1);
  }

  lemma {:induction false} DigitsNeedDigits(s: string, base: nat)
    requires 2 <= base <= 16 && Digits(s, base).Ok?
    ensures forall k :: 0 <= k < |s| ==> Value(s[k]) < base
  {
    if s != "" {
      DigitsNeedDigits(s[..|s| - 1], base);
    }
  }

  /** A number is a sign or none, and digits; and it must fit into 64 bits. */
  lemma ParseIntExact(sign: string, digits: string, base: nat)
    requires 2 <= base <= 16 && sign in ["", "+", "-"] && digits != "" && Digits(digits, base).Ok?
    ensures var v := Digits(digits, base).value as int;
            var n := if sign == "-" then -v else v;
            if -MAX_INT64 - 1 <= n <= MAX_INT64 then ParseInt(sign + digits, base) == Ok(n) else ParseInt(sign + digits, base).Err?
  {
    DigitsNeedDigits(digits, base);
    if sign == "" {
      assert sign + digits == digits;
    } else {
      assert (sign + digits)[0] == sign[0] && (sign + digits)[1..] == digits;
    }
  }

  // ----- Disc ids -----

  function DiscArtworkID(albumID: string, discNumber: int): string {
    albumID + ":" + Signed(discNumber, 10)
  }

  function ParseDiscArtworkID(id: string): Result<(string, int)> {
    var parts := Cut(id, ':');
    if parts.Err? || parts.value.1 == "" then Err("invalid disc artwork id")
    else
      var num := ParseInt(parts.value.1, 10);
      if num.Err? then Err("invalid disc number in artwork id") else Ok((parts.value.0, num.value))
  }

  /** A disc id comes back exactly when the album's id has no colon. */
  lemma DiscRoundTripExact(albumID: string, discNumber: int)
    requires -MAX_INT64 - 1 <= discNumber <= MAX_INT64
    ensures ParseDiscArtworkID(DiscArtworkID(albumID, discNumber)) == Ok((albumID, discNumber)) <==> ':' !in albumID
    ensures ParseDiscArtworkID(DiscArtworkID(albumID, discNumber)).Ok? <==> ':' !in albumID
  {
    var n := Signed(discNumber, 10);
    if ':' in albumID {
      CutEarlier(albumID, ':', n);
      var rest := Cut(DiscArtworkID(albumID, discNumber), ':').value.1;
      var digits := if rest[0] == '+' || rest[0] == '-' then rest[1..] else rest;
      assert rest[0] != ':' ==> ':' in rest[1..];
      NotDigits(digits, 10, ':');
    } else {
      CutAt(albumID, ':', n);
      IntRoundTrip(discNumber, 10);
    }
  }

  /** What a disc id is: an album's id, a colon, and a decimal number with an optional sign. */
  lemma DiscFormExact(albumID: string, number: string)
    requires ':' !in albumID
    ensures ParseDiscArtworkID(albumID + ":" + number).Ok? <==> ParseInt(number, 10).Ok?
    ensures ParseInt(number, 10).Ok? ==> ParseDiscArtworkID(albumID + ":" + number) == Ok((albumID, ParseInt(number, 10).value))
    ensures ParseDiscArtworkID(albumID).Err?
  {
    CutAt(albumID, ':', number);
    assert IndexOf(albumID, ':') == |albumID|;
  }

  lemma {:induction false} NumeralHas(n: nat, base: nat, c: char)
    requires 2 <= base <= 16 && Value(c) == 16
    ensures c !in Numeral(n, base)
  {
    NumeralIsPlain(n, base);
  }

  /** Through both layers: an artwork id made for a disc gives back the album, the disc and the time. */
  lemma NestedRoundTripExact(albumID: string, discNumber: int, lastUpdate: int)
    requires -MAX_INT64 - 1 <= discNumber <= MAX_INT64 && lastUpdate <= MAX_INT64
    ensures var a := Parse(String(ArtworkID(DiscArt, DiscArtworkID(albumID, discNumber), lastUpdate)));
            && (a.Ok? <==> '_' !in albumID)
            && (a.Ok? ==> a.value.kind == DiscArt && a.value.lastUpdate == Kept(lastUpdate))
            && (a.Ok? && ParseDiscArtworkID(a.value.id) == Ok((albumID, discNumber)) <==> '_' !in albumID && ':' !in albumID)
  {
    var id := DiscArtworkID(albumID, discNumber);
    NumeralHas(if discNumber < 0 then -discNumber else discNumber, 10, '_');
    assert '_' in id <==> '_' in albumID by {
      assert forall k :: 0 <= k < |albumID| ==> id[k] == albumID[k];
    }
    RoundTripExact(ArtworkID(DiscArt, id, lastUpdate));
    DiscRoundTripExact(albumID, discNumber);
  }
}
