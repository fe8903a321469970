/**
  Place and meeting texts: `formatPlaceHuman`, `detectPlacePush`,
  `normalizeMeetingType`, `normalizeMeetingTopic`, `buildMeetingTema` and
  `buildMeetingFooterHtml` (lib/generator.js:293-383).
*/
module Places {
  import opened Wrappers
  import opened Text

  // ---------------------------------------------------------------------------
  // The hall pattern `холл\s*(\d+)\s*(?:-?го)?\s*подъезда`, as a scanner

  /** `w` occurs in `s` at position `j`. */
  predicate HasAt(s: string, j: nat, w: string) {
    j + |w| <= |s| && s[j..j + |w|] == w
  }

  /** `s[j..k]` is white space only. */
  predicate Spaces(s: string, j: nat, k: nat) {
    j <= k <= |s| && forall x :: j <= x < k ==> IsSpace(s[x])
  }

  /** The end of the run of white space starting at `j`. */
  function SkipSpaces(s: string, j: nat): (k: nat)
    requires j <= |s|
    ensures Spaces(s, j, k) && (k < |s| ==> !IsSpace(s[k]))
    decreases |s| - j
  {
    if j < |s| && IsSpace(s[j]) then SkipSpaces(s, j + 1) else j
  }

  /** The end of the run of digits starting at `j`. */
  function SkipDigits(s: string, j: nat): (k: nat)
    requires j <= |s|
    ensures j <= k <= |s| && (forall x :: j <= x < k ==> IsDigit(s[x])) && (k < |s| ==> !IsDigit(s[k]))
    decreases |s| - j
  {
    if j < |s| && IsDigit(s[j]) then SkipDigits(s, j + 1) else j
  }

  /** Where the optional `-го` or `го` after the digits ends. */
  function SkipSuffix(s: string, c: nat): (d: nat)
    requires c <= |s|
    ensures d == c || (d == c + 3 && HasAt(s, c, "-го")) || (d == c + 2 && HasAt(s, c, "го"))
  {
    if HasAt(s, c, "-го") then c + 3 else if HasAt(s, c, "го") then c + 2 else c
  }

  /**
    The pattern tried at position `i`: the span of the captured digits when it
    matches. Each part is taken as far as it goes; no shorter choice can
    match, since what follows each part cannot start the part itself.
  */
  function HallAt(s: string, i: nat): (m: Option<(nat, nat)>)
    requires i <= |s|
    ensures m.Some? ==> m.value.0 < m.value.1 <= |s|
  {
    if !HasAt(s, i, "холл") then None
    else
      var a := SkipSpaces(s, i + 4);
      var b := SkipDigits(s, a);
      if a == b then None
      else
        var e := SkipSpaces(s, SkipSuffix(s, SkipSpaces(s, b)));
        if HasAt(s, e, "подъезда") then Some((a, b)) else None
  }

  /** What the scanner captures is a run of digits. */
  lemma HallAtDigits(s: string, i: nat)
    requires i <= |s| && HallAt(s, i).Some?
    ensures AllDigits(s[HallAt(s, i).value.0..HallAt(s, i).value.1])
  {
  }

  /**
    The regular expression's own reading of a match at `i`: `холл`, white
    space, the digits `s[a..b]`, white space, an optional `-го` or `го`, white
    space, then `подъезда`.
  */
  predicate HallMatch(s: string, i: nat, a: nat, b: nat, c: nat, d: nat, e: nat) {
    && HasAt(s, i, "холл") && Spaces(s, i + 4, a)
    && a < b <= |s| && (forall x :: a <= x < b ==> IsDigit(s[x]))
    && Spaces(s, b, c)
    && (d == c || (d == c + 3 && HasAt(s, c, "-го")) || (d == c + 2 && HasAt(s, c, "го")))
    && Spaces(s, d, e) && HasAt(s, e, "подъезда")
  }

  /** The scanner finds a match exactly where the pattern matches, with the same captured digits. */
  lemma HallAtIff(s: string, i: nat, a: nat, b: nat)
    requires i <= |s|
    ensures HallAt(s, i) == Some((a, b)) <==> exists c, d, e :: HallMatch(s, i, a, b, c, d, e)
  {
    if HallAt(s, i) == Some((a, b)) {
      var c := SkipSpaces(s, b);
      var d := SkipSuffix(s, c);
      var e := SkipSpaces(s, d);
      assert HallMatch(s, i, a, b, c, d, e);
    }
    if c, d, e :| HallMatch(s, i, a, b, c, d, e) {
      HallMatchIsScanned(s, i, a, b, c, d, e);
    }
  }

  lemma FirstChar(s: string, j: nat, w: string)
    requires HasAt(s, j, w) && w != []
    ensures s[j] == w[0]
  {
    assert s[j] == s[j..j + |w|][0];
  }

  /** Nothing a match puts after the digits is a digit. */
  lemma DigitsStop(s: string, i: nat, a: nat, b: nat, c: nat, d: nat, e: nat)
    requires HallMatch(s, i, a, b, c, d, e)
    ensures b < |s| && !IsDigit(s[b])
  {
    FirstChar(s, e, "подъезда");
    if b == c && d == c + 3 {
      FirstChar(s, c, "-го");
    } else if b == c && d == c + 2 {
      FirstChar(s, c, "го");
    }
  }

  /** After the digits, the scanner reaches the same `подъезда` as the match. */
  lemma SuffixScanned(s: string, b: nat, c: nat, d: nat, e: nat)
    requires Spaces(s, b, c) && Spaces(s, d, e) && HasAt(s, e, "подъезда")
    requires d == c || (d == c + 3 && HasAt(s, c, "-го")) || (d == c + 2 && HasAt(s, c, "го"))
    ensures SkipSpaces(s, SkipSuffix(s, SkipSpaces(s, b))) == e
  {
    FirstChar(s, e, "подъезда");
    if d == c {
      assert Spaces(s, b, e);
      SpacesEnd(s, b, e);
      assert !HasAt(s, e, "-го") && !HasAt(s, e, "го") by {
        if HasAt(s, e, "-го") { FirstChar(s, e, "-го"); }
        if HasAt(s, e, "го") { FirstChar(s, e, "го"); }
      }
      SpacesEnd(s, e, e);
    } else {
      if d == c + 3 {
        FirstChar(s, c, "-го");
      } else {
        FirstChar(s, c, "го");
        assert !HasAt(s, c, "-го") by {
          if HasAt(s, c, "-го") { FirstChar(s, c, "-го"); }
        }
      }
      SpacesEnd(s, b, c);
      SpacesEnd(s, d, e);
    }
  }

  lemma HallMatchIsScanned(s: string, i: nat, a: nat, b: nat, c: nat, d: nat, e: nat)
    requires HallMatch(s, i, a, b, c, d, e)
    ensures HallAt(s, i) == Some((a, b))
  {
    assert !IsSpace(s[a]);
    SpacesEnd(s, i + 4, a);
    DigitsStop(s, i, a, b, c, d, e);
    DigitsEnd(s, a, b);
    SuffixScanned(s, b, c, d, e);
  }

  /** A white-space run that stops before a non-space character is the whole run. */
  lemma {:induction false} SpacesEnd(s: string, j: nat, k: nat)
    requires Spaces(s, j, k) && (k < |s| ==> !IsSpace(s[k]))
    ensures SkipSpaces(s, j) == k
    decreases k - j
  {
    if j < k {
      SpacesEnd(s, j + 1, k);
    }
  }

  /** A digit run that stops before a non-digit is the whole run. */
  lemma {:induction false} DigitsEnd(s: string, j: nat, k: nat)
    requires j <= k <= |s| && (forall x :: j <= x < k ==> IsDigit(s[x])) && (k < |s| ==> !IsDigit(s[k]))
    ensures SkipDigits(s, j) == k
    decreases k - j
  {
    if j < k {
      DigitsEnd(s, j + 1, k);
    }
  }

  /** Where `s.match(pattern)` finds its match: the leftmost position from `i` on. */
  function FindHall(s: string, i: nat): (j: Option<nat>)
    requires i <= |s|
    ensures j.Some? ==> i <= j.value <= |s| && HallAt(s, j.value).Some?
    decreases |s| - i
  {
    if HallAt(s, i).Some? then Some(i)
    else if i == |s| then None
    else FindHall(s, i + 1)
  }

  /** `FindHall` misses no match: none lies before the one it finds, and none at all when it finds nothing. */
  lemma {:induction false} FindHallLeftmost(s: string, i: nat, k: nat)
    requires i <= k <= |s| && HallAt(s, k).Some?
    ensures FindHall(s, i).Some? && FindHall(s, i).value <= k
    decreases k - i
  {
    if HallAt(s, i).None? {
      assert i != k && i < |s|;
      FindHallLeftmost(s, i + 1, k);
      assert FindHall(s, i) == FindHall(s, i + 1);
    } else {
      assert FindHall(s, i) == Some(i);
    }
  }

  // ---------------------------------------------------------------------------
  // formatPlaceHuman

  /**
    `formatPodiezdGenitive(n)` for the captured digits: the number followed
    by `-го`, or the empty text for zero.
  */
  function PodiezdGenitive(digits: string): (r: string)
    requires AllDigits(digits)
    ensures r == "" <==> ParseDigits(digits) == 0
  {
    var n := ParseDigits(digits);
    if n == 0 then "" else NatToString(n) + "-го"
  }

  /** A printed entrance number comes back with its ending. */
  lemma PodiezdOfPrinted(n: nat)
    requires n > 0
    ensures AllDigits(NatToString(n)) && PodiezdGenitive(NatToString(n)) == NatToString(n) + "-го"
  {
    ParsePrinted(n);
  }

  /** Leading zeros do not change the number read from the digits. */
  lemma {:induction false} LeadingZero(d: string)
    requires AllDigits(d)
    ensures AllDigits("0" + d) && ParseDigits("0" + d) == ParseDigits(d)
    decreases |d|
  {
    if d != [] {
      LeadingZero(d[..|d| - 1]);
      assert ("0" + d)[..|d|] == "0" + d[..|d| - 1];
    }
  }

  /** So "холл 03 подъезда" and "холл 3 подъезда" name the same entrance. */
  lemma PodiezdLeadingZero(d: string)
    requires AllDigits(d)
    ensures AllDigits("0" + d) && PodiezdGenitive("0" + d) == PodiezdGenitive(d)
  {
    LeadingZero(d);
  }

  /**
    The hall phrase for the normalised place `s`: the entrance number the
    pattern captures, or the bare phrase when the pattern fails but both
    words occur.
  */
  function HallPhrase(s: string): (r: Option<string>)
    ensures r.Some? ==> r.value != [] && r.value[0] == 'в'
  {
    match FindHall(s, 0)
    case Some(j) =>
      var m := HallAt(s, j).value;
      HallAtDigits(s, j);
      var ord := PodiezdGenitive(s[m.0..m.1]);
      Some(if ord != "" then "в холле " + ord + " подъезда" else "в холле подъезда")
    case None =>
      if Contains(s, "холл") && Contains(s, "подъезд") then Some("в холле подъезда") else None
  }

  /** `formatPlaceHuman(placeRaw)` (lib/generator.js:300-318). */
  function FormatPlaceHuman(placeRaw: string): string {
    var s0 := Trim(placeRaw);
    if s0 == "" then "" else PlaceOfCollapsed(Trim(CollapseSpaces(s0)))
  }

  /** The place text for a non-blank place `t` whose white space is already collapsed. */
  function PlaceOfCollapsed(t: string): string {
    var s := LowerString(t);
    if Contains(s, "около дома") then "около дома"
    else match HallPhrase(s)
      case Some(h) => h
      case None => t
  }

  /** `detectPlacePush(placeRaw)` (lib/generator.js:320-329): the hall branch gives the default too. */
  function DetectPlacePush(placeRaw: string): (r: string)
    ensures r == "в вашем дворе" || r == "в вашем доме"
    ensures r == "в вашем дворе" <==> Contains(CollapseSpaces(LowerString(Trim(placeRaw))), "около дома")
  {
    var s := CollapseSpaces(LowerString(Trim(placeRaw)));
    if Contains(s, "около дома") then "в вашем дворе"
    else if Contains(s, "холл") || Contains(s, "подъезд") || Contains(s, "в холле") then "в вашем доме"
    else "в вашем доме"
  }

  // ---------------------------------------------------------------------------
  // White space and case

  lemma LowerKeepsSpace(c: char)
    ensures IsSpace(Lower(c)) <==> IsSpace(c)
  {
  }

  lemma {:induction false} LowerStringAppend(a: string, b: string)
    ensures LowerString(a + b) == LowerString(a) + LowerString(b)
    decreases |a|
  {
    if a == [] {
      assert a + b == b;
    } else {
      assert (a + b)[1..] == a[1..] + b;
      LowerStringAppend(a[1..], b);
    }
  }

  lemma {:induction false} LowerTrimStart(s: string)
    ensures LowerString(TrimStart(s)) == TrimStart(LowerString(s))
    decreases |s|
  {
    if s != [] {
      LowerKeepsSpace(s[0]);
      assert LowerString(s)[1..] == LowerString(s[1..]);
      if IsSpace(s[0]) {
        LowerTrimStart(s[1..]);
      }
    }
  }

  /** Lower-casing and collapsing white space can be done in either order. */
  lemma {:induction false} LowerCollapse(s: string)
    ensures LowerString(CollapseSpaces(s)) == CollapseSpaces(LowerString(s))
    decreases |s|
  {
    if s != [] {
      var l := LowerString(s);
      LowerKeepsSpace(s[0]);
      assert l[0] == Lower(s[0]) && l[1..] == LowerString(s[1..]);
      if IsSpace(s[0]) {
        LowerCollapse(TrimStart(s));
        LowerTrimStart(s);
        LowerStringAppend(" ", CollapseSpaces(TrimStart(s)));
      } else {
        LowerCollapse(s[1..]);
        LowerStringAppend([s[0]], CollapseSpaces(s[1..]));
      }
    }
  }

  /** Collapsing keeps a text's first character when it is not white space. */
  lemma CollapseFirst(s: string)
    requires s != [] && !IsSpace(s[0])
    ensures CollapseSpaces(s) != [] && CollapseSpaces(s)[0] == s[0]
  {
  }

  /** Collapsing keeps a text's last character when it is not white space. */
  lemma {:induction false} CollapseLast(s: string)
    requires s != [] && !IsSpace(s[|s| - 1])
    ensures var r := CollapseSpaces(s); r != [] && r[|r| - 1] == s[|s| - 1]
    decreases |s|
  {
    if IsSpace(s[0]) {
      var t := TrimStart(s);
      TrimStartKeepsLast(s);
      CollapseLast(t);
    } else if |s| > 1 {
      CollapseLast(s[1..]);
    }
  }

  lemma {:induction false} TrimStartKeepsLast(s: string)
    requires s != [] && !IsSpace(s[|s| - 1])
    ensures var t := TrimStart(s); t != [] && t[|t| - 1] == s[|s| - 1]
    decreases |s|
  {
    if IsSpace(s[0]) {
      TrimStartKeepsLast(s[1..]);
    }
  }

  /** A trimmed text stays trimmed when its white space is collapsed. */
  lemma CollapseTrimmed(s: string)
    requires s != [] && !IsSpace(s[0]) && !IsSpace(s[|s| - 1])
    ensures Trim(CollapseSpaces(s)) == CollapseSpaces(s) && CollapseSpaces(s) != []
  {
    CollapseFirst(s);
    CollapseLast(s);
    TrimOfUnpadded(CollapseSpaces(s));
  }

  /** The place text is empty exactly when the place is blank. */
  lemma FormatPlaceEmptyIff(placeRaw: string)
    ensures FormatPlaceHuman(placeRaw) == "" <==> Trim(placeRaw) == ""
  {
    var s0 := Trim(placeRaw);
    if s0 != "" {
      CollapseTrimmed(s0);
      PlaceOfCollapsedNonEmpty(Trim(CollapseSpaces(s0)));
    }
  }

  /** Non-blank collapsed text never turns into an empty place. */
  lemma PlaceOfCollapsedNonEmpty(t: string)
    requires t != ""
    ensures PlaceOfCollapsed(t) != ""
  {
  }

  lemma LowerFixed(s: string)
    requires forall i :: 0 <= i < |s| ==> Lower(s[i]) == s[i]
    ensures LowerString(s) == s
  {
  }

  predicate SmallCyrillic(c: char) {
    c == ' ' || '\U{0430}' <= c <= '\U{044F}'
  }

  lemma LowerNearHouse()
    ensures LowerString("около дома") == "около дома"
  {
    var s := "около дома";
    assert forall i :: 0 <= i < |s| ==> SmallCyrillic(s[i]);
    LowerFixed(s);
  }

  /** The place text is "около дома" exactly when the normalised place mentions it. */
  lemma PlaceNearHouseIff(t: string)
    ensures PlaceOfCollapsed(t) == "около дома" <==> Contains(LowerString(t), "около дома")
  {
    var s := LowerString(t);
    if !Contains(s, "около дома") && HallPhrase(s).None? && t == "около дома" {
      LowerNearHouse();
      assert IsPrefix("около дома", s);
    }
  }

  /**
    The push says "в вашем дворе" exactly when the place text is "около
    дома": both read the same trimmed, collapsed, lower-cased text.
  */
  lemma PlacePushAgrees(placeRaw: string)
    ensures DetectPlacePush(placeRaw) == "в вашем дворе" <==> FormatPlaceHuman(placeRaw) == "около дома"
  {
    var s0 := Trim(placeRaw);
    if s0 != "" {
      PlaceNearHouseIff(Trim(CollapseSpaces(s0)));
      NormalizedAgree(s0);
    } else {
      assert CollapseSpaces(LowerString(s0)) == [];
    }
  }

  /** Both functions read the same text once it is non-blank. */
  lemma NormalizedAgree(s0: string)
    requires s0 != [] && !IsSpace(s0[0]) && !IsSpace(s0[|s0| - 1])
    ensures LowerString(Trim(CollapseSpaces(s0))) == CollapseSpaces(LowerString(s0))
  {
    CollapseTrimmed(s0);
    LowerCollapse(s0);
  }

  // ---------------------------------------------------------------------------
  // Meetings

  /** `normalizeMeetingType(raw)` (lib/generator.js:332-337). */
  function NormalizeMeetingType(raw: string): (r: string)
    ensures r == "online" || r == "offline" || r == ""
    ensures var s := LowerString(Trim(raw));
      && (r == "online" <==> Contains(s, "онлайн") || Contains(s, "online"))
      && (r == "" <==> !(Contains(s, "онлайн") || Contains(s, "online") ||
                         Contains(s, "оффлайн") || Contains(s, "офлайн") || Contains(s, "offline")))
  {
    var s := LowerString(Trim(raw));
    if Contains(s, "онлайн") || Contains(s, "online") then "online"
    else if Contains(s, "оффлайн") || Contains(s, "офлайн") || Contains(s, "offline") then "offline"
    else ""
  }

  predicate SmallLatin(c: char) {
    'a' <= c <= 'z'
  }

  lemma LowerLatin(r: string)
    requires forall i :: 0 <= i < |r| ==> SmallLatin(r[i])
    ensures LowerString(Trim(r)) == r
  {
    if r != [] {
      TrimOfUnpadded(r);
    }
    LowerFixed(r);
  }

  lemma OnlineReadsOnline()
    ensures NormalizeMeetingType("online") == "online"
  {
    var r := "online";
    assert forall i :: 0 <= i < |r| ==> SmallLatin(r[i]);
    LowerLatin(r);
    assert IsPrefix("online", r);
  }

  lemma OfflineReadsOffline()
    ensures NormalizeMeetingType("offline") == "offline"
  {
    var r := "offline";
    assert forall i :: 0 <= i < |r| ==> SmallLatin(r[i]);
    LowerLatin(r);
    assert IsPrefix("offline", r);
    MissingChar(r, "онлайн", 'й');
    OfflineNotOnline();
  }

  /** A text lacking one of the characters of `sub` does not contain `sub`. */
  lemma MissingChar(s: string, sub: string, c: char)
    requires c in sub && c !in s
    ensures !Contains(s, sub)
  {
    ContainsIff(s, sub);
    var k :| 0 <= k < |sub| && sub[k] == c;
    forall i | 0 <= i <= |s| - |sub|
      ensures !OccursAt(s, sub, i)
    {
      assert s[i..i + |sub|][k] == s[i + k] != c;
    }
  }

  lemma OfflineNotOnline()
    ensures !Contains("offline", "online")
  {
    var r := "offline";
    ContainsIff(r, "online");
    forall i | 0 <= i <= |r| - 6
      ensures !OccursAt(r, "online", i)
    {
      assert r[i + 1] == r[i..i + 6][1];
    }
  }

  /** Normalising a meeting type twice changes nothing: each result reads as itself. */
  lemma NormalizeMeetingTypeIdempotent(raw: string)
    ensures NormalizeMeetingType(NormalizeMeetingType(raw)) == NormalizeMeetingType(raw)
  {
    var r := NormalizeMeetingType(raw);
    if r == "online" {
      OnlineReadsOnline();
    } else if r == "offline" {
      OfflineReadsOffline();
    } else {
      assert LowerString(Trim(r)) == "";
    }
  }

  /** `normalizeMeetingTopic(topicRaw)` (lib/generator.js:345-353): two known topics, any other as trimmed. */
  function NormalizeMeetingTopic(topicRaw: string): (r: string)
    ensures LowerString(Trim(topicRaw)) == "умный домофон" ==> r == "установки умного домофона"
    ensures LowerString(Trim(topicRaw)) == "шлагбаум" ==> r == "установки шлагбаума"
    ensures LowerString(Trim(topicRaw)) != "умный домофон" && LowerString(Trim(topicRaw)) != "шлагбаум" ==>
      r == Trim(topicRaw)
  {
    var s := Trim(topicRaw);
    var low := LowerString(s);
    if low == "умный домофон" then "установки умного домофона"
    else if low == "шлагбаум" then "установки шлагбаума"
    else s
  }

  /** `buildMeetingTema(topicRaw)` (lib/generator.js:359-362): the topic phrase, or "ОСС" for a blank topic. */
  function BuildMeetingTema(topicRaw: string): (r: string)
    ensures r != ""
    ensures r == "ОСС" <==> Trim(topicRaw) == "" || Trim(topicRaw) == "ОСС"
  {
    var t := NormalizeMeetingTopic(topicRaw);
    if t != "" then t else "ОСС"
  }

  /** `ln.replace(/"/g, "&quot;")` */
  function EscapeQuotes(s: string): (r: string)
    ensures '"' !in r
    ensures '"' !in s ==> r == s
  {
    if s == [] then []
    else (if s[0] == '"' then "&quot;" else [s[0]]) + EscapeQuotes(s[1..])
  }

  /** The inverse of `EscapeQuotes` on its outputs: `&quot;` back to `"`. */
  function UnescapeQuotes(s: string): string
    decreases |s|
  {
    if s == [] then []
    else if HasAt(s, 0, "&quot;") then "\"" + UnescapeQuotes(s[6..])
    else [s[0]] + UnescapeQuotes(s[1..])
  }

  /** A link that holds no `&` comes back from its escaped form unchanged. */
  lemma {:induction false} EscapeRoundTrip(s: string)
    requires '&' !in s
    ensures UnescapeQuotes(EscapeQuotes(s)) == s
    decreases |s|
  {
    if s != [] {
      var rest := EscapeQuotes(s[1..]);
      EscapeRoundTrip(s[1..]);
      if s[0] == '"' {
        assert EscapeQuotes(s) == "&quot;" + rest;
        UnescapeQuoteHead(rest);
      } else {
        assert EscapeQuotes(s) == [s[0]] + rest;
        UnescapePlainHead(s[0], rest);
      }
    }
  }

  lemma UnescapeQuoteHead(rest: string)
    ensures UnescapeQuotes("&quot;" + rest) == "\"" + UnescapeQuotes(rest)
  {
    assert ("&quot;" + rest)[6..] == rest;
    assert HasAt("&quot;" + rest, 0, "&quot;");
  }

  lemma UnescapePlainHead(c: char, rest: string)
    requires c != '&'
    ensures UnescapeQuotes([c] + rest) == [c] + UnescapeQuotes(rest)
  {
    assert ([c] + rest)[1..] == rest;
    assert !HasAt([c] + rest, 0, "&quot;") by {
      assert ([c] + rest)[0] == c;
    }
  }

  /** The online footer up to the opening quote of the link's `href`. */
  const LinkOpen: string := "<div><br />Встреча пройдет в онлайн-формате – подключиться можно будет по <a href=\""

  /** The online footer after the closing quote of the link's `href`. */
  const LinkRest: string := " target=\"_blank\" rel=\"noopener noreferrer\">ссылке</a>.</div>"

  /** `buildMeetingFooterHtml({ isOnline, link, placeText, address })` (lib/generator.js:365-383). */
  function BuildMeetingFooterHtml(isOnline: bool, link: string, placeText: string, address: string): string {
    var addr := Trim(address);
    var place := Trim(placeText);
    var ln := Trim(link);
    if !isOnline then "<div><br />Встреча пройдет " + place + " по адресу: " + addr + ".</div>"
    else if ln != "" then LinkOpen + EscapeQuotes(ln) + "\"" + LinkRest
    else "<div><br />Встреча пройдет в онлайн-формате. Ссылка на встречу была направлена в СМС-сообщении.</div>"
  }

  /** The text before the first `"`. */
  function TakeUntilQuote(s: string): (r: string)
    ensures '"' !in r
  {
    if s == [] || s[0] == '"' then [] else [s[0]] + TakeUntilQuote(s[1..])
  }

  /** How a browser reads the link back out of an online footer: the `href` value, up to its closing quote. */
  function HrefValue(html: string): Option<string> {
    if IsPrefix(LinkOpen, html) then Some(TakeUntilQuote(html[|LinkOpen|..])) else None
  }

  lemma {:induction false} TakeUntilQuoteOf(x: string, t: string)
    requires '"' !in x && t != [] && t[0] == '"'
    ensures TakeUntilQuote(x + t) == x
    decreases |x|
  {
    if x == [] {
      assert x + t == t;
    } else {
      assert (x + t)[1..] == x[1..] + t;
      TakeUntilQuoteOf(x[1..], t);
    }
  }

  lemma HrefOf(safe: string)
    requires '"' !in safe
    ensures HrefValue(LinkOpen + safe + "\"" + LinkRest) == Some(safe)
  {
    var close := "\"" + LinkRest;
    var html := LinkOpen + safe + "\"" + LinkRest;
    assert html == LinkOpen + (safe + close);
    assert html[..|LinkOpen|] == LinkOpen;
    assert html[|LinkOpen|..] == safe + close;
    TakeUntilQuoteOf(safe, close);
  }

  /**
    An online footer with a link carries it, escaped, as the whole `href`
    value; a link without `&` is read back exactly as it was given.
  */
  lemma FooterLinkReadBack(link: string, placeText: string, address: string)
    requires Trim(link) != ""
    ensures HrefValue(BuildMeetingFooterHtml(true, link, placeText, address)) == Some(EscapeQuotes(Trim(link)))
    ensures '&' !in Trim(link) ==>
      UnescapeQuotes(HrefValue(BuildMeetingFooterHtml(true, link, placeText, address)).value) == Trim(link)
  {
    var safe := EscapeQuotes(Trim(link));
    assert BuildMeetingFooterHtml(true, link, placeText, address) == LinkOpen + safe + "\"" + LinkRest;
    HrefOf(safe);
    if '&' !in Trim(link) {
      EscapeRoundTrip(Trim(link));
    }
  }
}
