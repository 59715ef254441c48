/**
 * `wa.me` link building (utils/whatsapp.ts): the number is reduced to its
 * digits, the optional pre-filled message goes in a `text` query parameter,
 * and the bot's link uses the configured bot number with the country code.
 */
module WhatsApp {
  import opened Wrappers
  import opened Strings
  import opened UriComponent

  predicate IsDigit(c: char) {
    '0' <= c <= '9'
  }

  /** `number.replace(/\D/g, "")` */
  function KeepDigits(s: string): (r: string)
    ensures |r| <= |s|
    ensures forall k :: 0 <= k < |r| ==> IsDigit(r[k])
  {
    if s == [] then []
    else if IsDigit(s[0]) then [s[0]] + KeepDigits(s[1..])
    else KeepDigits(s[1..])
  }

  /** Exactly the digits of `s` are kept, each as often as it occurs there. */
  lemma {:induction false} KeepDigitsCounts(s: string)
    ensures forall c :: multiset(KeepDigits(s))[c] == if IsDigit(c) then multiset(s)[c] else 0
  {
    if s != [] {
      KeepDigitsCounts(s[1..]);
      assert s == [s[0]] + s[1..];
    }
  }

  /** The digits keep their order: stripping works piece by piece. */
  lemma {:induction false} KeepDigitsConcat(a: string, b: string)
    ensures KeepDigits(a + b) == KeepDigits(a) + KeepDigits(b)
  {
    if a == [] {
      assert a + b == b;
    } else {
      assert (a + b)[1..] == a[1..] + b;
      KeepDigitsConcat(a[1..], b);
    }
  }

  /** A string of digits is left as it is; so stripping twice is stripping once. */
  lemma {:induction false} KeepDigitsOfDigits(s: string)
    requires forall k :: 0 <= k < |s| ==> IsDigit(s[k])
    ensures KeepDigits(s) == s
  {
    if s != [] {
      KeepDigitsOfDigits(s[1..]);
      assert s == [s[0]] + s[1..];
    }
  }

  lemma KeepDigitsIdempotent(s: string)
    ensures KeepDigits(KeepDigits(s)) == KeepDigits(s)
  {
    KeepDigitsOfDigits(KeepDigits(s));
  }

  const WaMe := "https://wa.me/"

  /** A message is attached only when it is present and not empty (JavaScript truthiness). */
  predicate HasText(text: Option<string>) {
    text.Some? && text.value != ""
  }

  /** `generateWhatsAppLink({ number, text })` */
  function GenerateWhatsAppLink(number: string, text: Option<string>): (r: string)
    ensures StartsWith(r, WaMe + KeepDigits(number))
    ensures !HasText(text) ==> r == WaMe + KeepDigits(number)
  {
    var baseUrl := WaMe + KeepDigits(number);
    if HasText(text) then baseUrl + "?text=" + EncodeURIComponent(text.value) else baseUrl
  }

  /**
   * What a `wa.me` link addresses: the path after the prefix up to the first
   * `?`, and the decoded `text` parameter when the query is exactly one.
   */
  function ParseWaMeLink(link: string): Option<(string, Option<string>)> {
    if !StartsWith(link, WaMe) then None
    else
      var rest := link[|WaMe|..];
      match IndexOf(rest, "?")
      case None => Some((rest, None))
      case Some(i) =>
        var query := rest[i + 1..];
        if !StartsWith(query, "text=") then None
        else match Decode(query[5..])
          case None => None
          case Some(t) => Some((rest[..i], Some(t)))
  }

  /** A string without the character `c` has no occurrence of it. */
  lemma NoOccurrence(s: string, c: char)
    requires forall k :: 0 <= k < |s| ==> s[k] != c
    ensures IndexOf(s, [c]) == None
  {
    forall j | 0 <= j
      ensures !OccursAt(s, [c], j)
    {
      if j + 1 <= |s| {
        assert s[j..j + 1] == [s[j]];
      }
    }
  }

  /** The first `c` in `p + x` is the head of `x` when `p` has none. */
  lemma FirstOccurrence(p: string, x: string, c: char)
    requires forall k :: 0 <= k < |p| ==> p[k] != c
    requires |x| > 0 && x[0] == c
    ensures IndexOf(p + x, [c]) == Some(|p|)
  {
    var s := p + x;
    assert s[|p|..|p| + 1] == [c];
    assert OccursAt(s, [c], |p|);
    forall j | 0 <= j < |p|
      ensures !OccursAt(s, [c], j)
    {
      assert s[j..j + 1] == [p[j]];
    }
  }

  /** Parsing a digits-only link with a `text` parameter. */
  lemma ParseWithText(digits: string, t: string)
    requires forall k :: 0 <= k < |digits| ==> IsDigit(digits[k])
    ensures ParseWaMeLink(WaMe + digits + "?text=" + EncodeURIComponent(t)) == Some((digits, Some(t)))
  {
    var enc := EncodeURIComponent(t);
    var x := "?text=" + enc;
    var link := WaMe + digits + "?text=" + enc;
    assert link == WaMe + (digits + x);
    assert link[..|WaMe|] == WaMe;
    var rest := link[|WaMe|..];
    assert rest == digits + x;
    FirstOccurrence(digits, x, '?');
    var query := rest[|digits| + 1..];
    assert query == "text=" + enc;
    assert query[..5] == "text=";
    assert query[5..] == enc;
    DecodeEncode(t);
    assert rest[..|digits|] == digits;
  }

  /** Parsing a digits-only link without a query. */
  lemma ParseWithoutText(digits: string)
    requires forall k :: 0 <= k < |digits| ==> IsDigit(digits[k])
    ensures ParseWaMeLink(WaMe + digits) == Some((digits, None))
  {
    var link := WaMe + digits;
    assert link[..|WaMe|] == WaMe;
    assert link[|WaMe|..] == digits;
    NoOccurrence(digits, '?');
  }

  /**
   * Round trip: the link addresses exactly the digits of the number, and
   * carries the message text unchanged when there is one.
   */
  lemma LinkRoundTrip(number: string, text: Option<string>)
    ensures ParseWaMeLink(GenerateWhatsAppLink(number, text))
      == Some((KeepDigits(number), if HasText(text) then Some(text.value) else None))
  {
    if HasText(text) {
      ParseWithText(KeepDigits(number), text.value);
    } else {
      ParseWithoutText(KeepDigits(number));
    }
  }

  /** `BOT_NUMBER`: the configured number, or "" when the variable is unset or empty (`|| ""`). */
  function BotNumber(env: Option<string>): (r: string)
    ensures env.Some? && env.value != "" ==> r == env.value
    ensures env.Some? ==> r == env.value
    ensures env.None? ==> r == ""
  {
    env.GetOr("")
  }

  /** `s.replace(/^0/, "")`: one leading zero, if any, is dropped. */
  function StripLeadingZero(s: string): (r: string)
    ensures StartsWith(s, "0") ==> r == s[1..]
    ensures !StartsWith(s, "0") ==> r == s
  {
    if |s| > 0 && s[0] == '0' then s[1..] else s
  }

  /** `BOT_NUMBER_WITH_COUNTRY_CODE`: always `62` first, one character per remaining digit. */
  function BotNumberWithCountryCode(env: Option<string>): (r: string)
    ensures StartsWith(r, "62")
    ensures |r| == 2 + |BotNumber(env)| - (if StartsWith(BotNumber(env), "0") then 1 else 0)
  {
    "62" + StripLeadingZero(BotNumber(env))
  }

  /** The digits the bot link addresses: `62` survives the `\D` filter. */
  lemma BotDigits(env: Option<string>)
    ensures KeepDigits(BotNumberWithCountryCode(env)) == "62" + KeepDigits(StripLeadingZero(BotNumber(env)))
  {
    KeepDigitsConcat("62", StripLeadingZero(BotNumber(env)));
    KeepDigitsOfDigits("62");
  }

  /** `generateBotWhatsAppLink(text)`: a link to `62` and the bot's digits. */
  function GenerateBotWhatsAppLink(env: Option<string>, text: Option<string>): (r: string)
    ensures StartsWith(r, WaMe + "62" + KeepDigits(StripLeadingZero(BotNumber(env))))
    ensures !HasText(text) ==> r == WaMe + "62" + KeepDigits(StripLeadingZero(BotNumber(env)))
  {
    BotDigits(env);
    GenerateWhatsAppLink(BotNumberWithCountryCode(env), text)
  }

  /**
   * The bot number gets `62` in front of the configured number with at most
   * one leading zero dropped; the prefix is added even when the number
   * already starts with `62`.
   */
  lemma BotNumberShape(env: Option<string>)
    ensures var n := BotNumber(env);
      && (StartsWith(n, "0") ==> BotNumberWithCountryCode(env) == "62" + n[1..])
      && (!StartsWith(n, "0") ==> BotNumberWithCountryCode(env) == "62" + n)
      && (StartsWith(n, "62") ==> StartsWith(BotNumberWithCountryCode(env), "6262"))
      && (StartsWith(n, "00") ==> StartsWith(BotNumberWithCountryCode(env), "620"))
  {
    var n := BotNumber(env);
    if StartsWith(n, "62") {
      assert n[0] == n[..2][0] == '6';
      assert ("62" + n)[..4] == "62" + n[..2];
    }
    if StartsWith(n, "00") {
      assert n[1..][..1] == n[..2][1..] == "0";
      assert ("62" + n[1..])[..3] == "62" + n[1..][..1];
    }
  }

  /** The bot's link: `wa.me/62…` with the bot's digits, and the text parameter only for a non-empty message. */
  lemma BotLinkRoundTrip(env: Option<string>, text: Option<string>)
    ensures ParseWaMeLink(GenerateBotWhatsAppLink(env, text))
      == Some(("62" + KeepDigits(StripLeadingZero(BotNumber(env))), if HasText(text) then Some(text.value) else None))
  {
    LinkRoundTrip(BotNumberWithCountryCode(env), text);
    BotDigits(env);
  }

  /** With no bot number configured the link is just `https://wa.me/62`. */
  lemma EmptyBotNumber(text: Option<string>)
    requires !HasText(text)
    ensures GenerateBotWhatsAppLink(None, text) == "https://wa.me/62"
    ensures GenerateBotWhatsAppLink(Some(""), text) == "https://wa.me/62"
  {
    KeepDigitsOfDigits("62");
  }

  /**
   * A link for a number already written in digits, with a non-empty message
   * of unreserved characters: both appear verbatim.
   */
  lemma PlainLink(number: string, text: string)
    requires forall k :: 0 <= k < |number| ==> IsDigit(number[k])
    requires text != [] && forall k :: 0 <= k < |text| ==> Unreserved(text[k])
    ensures GenerateWhatsAppLink(number, Some(text)) == WaMe + number + "?text=" + text
  {
    KeepDigitsOfDigits(number);
    EncodeUnreserved(text);
  }

  /** Worked example: bot number `081234` becomes `6281234`. */
  lemma BotNumberExample(env: Option<string>)
    requires env == Some("081234")
    ensures BotNumberWithCountryCode(env) == "6281234"
  {
    assert env.value[1..] == "81234";
  }

  /** Worked example: bot number `081234` and the message `halo`. */
  lemma BotLinkExample(env: Option<string>, text: Option<string>)
    requires env == Some("081234") && text == Some("halo")
    ensures GenerateBotWhatsAppLink(env, text) == "https://wa.me/6281234?text=halo"
  {
    var n := BotNumberWithCountryCode(env);
    BotNumberExample(env);
    PlainLink(n, text.value);
    ExampleLinkText(n, text.value);
  }

  lemma ExampleLinkText(n: string, t: string)
    requires n == "6281234" && t == "halo"
    ensures WaMe + n + "?text=" + t == "https://wa.me/6281234?text=halo"
  {
  }
}
