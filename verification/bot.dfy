/** The message handler of bot.py (`check_number`): it strips the incoming
    text and, when what is left is longer than seven characters, announces
    the check and replies with the lookup's text; otherwise it replies with a
    usage hint only. */
module Bot {
  import opened Json
  import Text
  import opened PhoneMetadata

  const CheckingText: string := "Checking... \U{23F3}"
  const UsageHint: string := "Please send a valid international number (e.g., +1...)"

  /** What one incoming message causes: the replies sent to the chat, in
      order, and the HTTP requests made on the way. */
  datatype Turn = Turn(replies: seq<string>, requests: seq<Request>)

  /** `check_number` for a message with text `text`. */
  function CheckNumber(text: string, key: Option<string>, primary: Fetch, legacy: Fetch): (t: Turn)
    ensures |t.replies| == 2 <==> |Text.Strip(text)| > 7
    ensures |t.replies| == 2 ==>
              var run := Lookup(key, Text.Strip(text), primary, legacy);
              t.replies[0] == CheckingText && t.replies[1] == Render(run.outcome) && t.requests == run.requests
    ensures |t.replies| != 2 ==> t == Turn([UsageHint], [])
    ensures t.requests != [] ==> |Text.Strip(text)| > 7 && KeyConfigured(key)
  {
    var number := Text.Strip(text);
    if |number| > 7 then
      var run := Lookup(key, number, primary, legacy);
      Turn([CheckingText, Render(run.outcome)], run.requests)
    else
      Turn([UsageHint], [])
  }

  /** Whitespace around the number changes nothing: the handler behaves as if
      it had been sent the stripped text. */
  lemma SurroundingSpaceIsIgnored(text: string, key: Option<string>, primary: Fetch, legacy: Fetch)
    ensures CheckNumber(text, key, primary, legacy) == CheckNumber(Text.Strip(text), key, primary, legacy)
  {
    Text.StripIdempotent(text);
  }

  /** The number sent to the service is the stripped text: it never begins
      or ends with whitespace. */
  lemma LookedUpNumberIsStripped(text: string, key: Option<string>, primary: Fetch, legacy: Fetch)
    requires |Text.Strip(text)| > 7 && KeyConfigured(key)
    ensures var t := CheckNumber(text, key, primary, legacy);
            var number := Text.Strip(text);
            && t.requests[0].url == "https://api.apilayer.com/number_verification/validate?number=" + number
            && !Text.IsSpace(number[0]) && !Text.IsSpace(number[|number| - 1])
  {
    Text.StripIsMiddle(text);
  }
}
