# Phone-number lookup bot: a Dafny model of its decision logic

This Telegram bot answers every text message that looks like a phone number.
It asks the APILayer number-verification service about the number and replies
with a short report. The model covers the two pieces of logic in `bot.py`:

- `get_phone_metadata` (module `PhoneMetadata`):
  - the configured-key check;
  - the request to the newer `api.apilayer.com` endpoint, with the key in an
    `apikey` header;
  - the one-shot fallback to the legacy `apilayer.net` endpoint, with the key
    in the query string, when the first body mentions `error` or `message`;
  - the three-way decision on the final body's `valid` field: exactly `True`,
    exactly `False`, or anything else;
  - the catch-all that turns every exception into a "System Error" reply;
  - the reply text of each outcome.
- The `check_number` handler (module `Bot`). It strips the message text. When
  more than seven characters are left, it sends "Checking..." and then the
  lookup's reply; otherwise it sends a usage hint.

The two HTTP exchanges are parameters (`Fetch`). Each one either yields the
decoded JSON body or fails with the text of the exception. The lookup returns
its outcome together with the list of requests it sent, so the traffic is
part of what the contracts speak about.

The code applies Python's `in` and `.get` to whatever JSON `response.json()`
returned. So the model keeps the Python meaning of each step:

- `key in data` is key membership for a dictionary, element equality for a
  list and substring for a string. For `None`, booleans and numbers it raises
  `TypeError` (module `Json`).
- `data.get` exists only on a dictionary. On anything else it raises
  `AttributeError`.
- The exception texts the model reproduces for these two errors are the
  wording of CPython 3.12.
- A dictionary is derived from the object's member list as `json.loads` builds
  it: the last value of a repeated key wins, and keys keep the place of their
  first appearance.
- `is True` / `is False` accept only the JSON booleans.
- An f-string prints a field with `str()` and a whole payload with `repr()`,
  and a missing field as `None` (module `PyRepr`).
- `str.strip()` removes exactly the characters Python's `str.isspace()`
  accepts (module `Text`).

Modules:

- `Text`: strip, substring and newline splitting.
- `Json`: decoded JSON values, `in`, `.get`.
- `PyRepr`: `str` / `repr` of JSON values, and reading a string's `repr` back.
- `PhoneMetadata`: the lookup and its reply texts.
- `PhoneMetadataFacts`: properties that relate several runs or read a reply
  back.
- `Bot`: the message handler.
- `Scenarios`: concrete runs written out reply by reply.

Two details of `bot.py` shape the model. The gate in front of the lookup
only tests the stripped length: more than seven characters, whatever they
are. A field missing from a valid-number answer is printed as the word
`None` inside the report.

## Model

| member | source | states |
|---|---|---|
| PhoneMetadata.Lookup | bot.py:21-57 | With no usable key (unset or empty), the outcome is KeyMissing and no request is sent. With a key, the first request always goes to the newer endpoint with the key in an `apikey` header. A second request, to the legacy URL with key and number in the query, is sent exactly when the first body mentions `error` or `message`, so there are never more than two. The final body judged is the legacy one after a fallback and the first one otherwise. A first body that is `None`, a boolean or a number ends as a SystemError with the TypeError text "argument of type 'T' is not iterable". A failed exchange at either step ends as a SystemError carrying its message. |
| PhoneMetadata.WantsFallback | bot.py:35 | `"error" in data or "message" in data`: for a dictionary, true exactly when either key is present; for a list or a string, true exactly when either word is an element or a substring. It raises exactly when the body is `None`, a boolean or a number, with the TypeError text "argument of type 'T' is not iterable". |
| PhoneMetadata.Judge | bot.py:42-57 | Valid exactly when the body is a dictionary whose `valid` is the boolean true. Invalid exactly when it is the boolean false. ApiError, keeping the whole body, exactly when `valid` is anything else or absent. SystemError exactly when the body is not a dictionary, carrying the AttributeError text "'T' object has no attribute 'get'". The valid report holds country name, country code, location, carrier and line type, each as `.get` returned it. |
| PhoneMetadata.Render | bot.py:21-57 | The reply text of each outcome. A missing key gives the warning sign and "Error: API Key is missing.". A valid number gives the header and the four lines Country (name and code), Location, Carrier and Line Type, joined by newlines, each value printed with `str`. An invalid number gives the fixed sentence. An API error gives the warning prefix "API Error Details: " and the payload's Python `repr`. A system error gives the warning prefix "System Error: " and the exception text. |
| Text.JoinFive | bot.py:43-48 | Joining five lines puts exactly one newline between neighbours, as the adjacent f-strings of the report do. |
| PhoneMetadataFacts.FallbackDiscardsPrimary | bot.py:35-42 | Once the fallback fires, the first body no longer matters: two different first bodies that both trigger it give the same run. |
| PhoneMetadataFacts.ValidReportOrder | bot.py:42-49 | When no printed field value contains a newline, a valid-number reply splits into exactly five lines: the header, then `Country: name (code)`, `Location`, `Carrier`, `Line Type`, in that order. Each value is printed as Python prints it. |
| PhoneMetadataFacts.ReportSplitsIntoLines | bot.py:43-49 | The valid reply is the five report lines joined by newlines, and splitting it at newlines gives those lines back when no field value contains a newline. |
| PhoneMetadataFacts.InvalidReplyIgnoresPayload | bot.py:50-51 | Any two payloads whose `valid` is false give the same fixed invalid-number sentence, so nothing else in the payload reaches the reply. |
| PhoneMetadataFacts.ApiErrorShowsPayload | bot.py:52-54 | The API-error reply is the fixed prefix followed by the payload's Python `repr`, a text that opens with `{` and closes with `}`. |
| PhoneMetadataFacts.ReplyRevealsOutcome | bot.py:21-57 | The branch that produced a reply can be read back from the reply text, so different branches never produce the same reply. |
| Bot.CheckNumber | bot.py:64-72 | Two replies exactly when the stripped text is longer than seven characters: "Checking..." first, then the lookup's reply for the stripped text, with the lookup's requests. Otherwise only the usage hint and no request. A request is sent only for a long enough text and a configured key. |
| Bot.SurroundingSpaceIsIgnored | bot.py:66-67 | Whitespace around the message changes nothing: the handler behaves as if it had received the stripped text. |
| Bot.LookedUpNumberIsStripped | bot.py:66-69 | The number put into the request URL is the stripped text, which neither begins nor ends with whitespace. |
| Text.StripIsMiddle | bot.py:66 | `strip()` returns a contiguous middle part of the text with only whitespace outside it, and the result neither starts nor ends with whitespace. |
| Text.StripIdempotent | bot.py:66 | Stripping a stripped text changes nothing. |
| Text.StripPadding | bot.py:66 | Whitespace padding on either side of a text that does not start or end with whitespace is removed exactly. |
| Text.HasSubstring | bot.py:35 | Python's `needle in haystack` on strings holds exactly when the needle occurs at some offset of the haystack. |
| Text.SplitJoinLines | bot.py:43-49 | Splitting at newlines undoes joining lines with newlines when no line contains one. |
| Json.HasKey | bot.py:35 | `key in d` holds exactly when some member of the object has that key. |
| Json.Get | bot.py:42-50 | The model's `None` means the key is absent: it is returned exactly when no member has the key. A member whose value is JSON `null` gives `Some(JNull)`. Python's `d.get(key)` returns `None` in both cases, and the judging and printing steps treat the two alike. Otherwise the result is the value of one of the key's members, and an earlier member's value is overridden by any later one with the same key. |
| Json.GetLast | bot.py:42-50 | The value `d.get` returns for a key is the value at the key's last position. |
| Json.PyIn | bot.py:35 | `needle in data`: key membership for a dictionary, element equality for a list, substring for a string. For `None`, booleans and numbers it is the TypeError "argument of type 'T' is not iterable". |
| Json.PyGet | bot.py:42 | `data.get(key)` raises the AttributeError "'T' object has no attribute 'get'" exactly when the body is not a dictionary. Otherwise it is the key's last value. The model's `None` means the key is absent, and a member whose value is `null` gives `Some(JNull)`. Python returns `None` for both, and the judging and printing steps treat them alike. |
| PyRepr.StrOpt | bot.py:44-48 | A report field prints as the word `None` both when the key is absent and when its value is `null`, and a string value prints as its bare text. |
| PyRepr.ReprStrRoundTrip | bot.py:54 | A string's `repr` is its text between two equal quotes, and the original string is recovered exactly from the text between them. |
| PyRepr.ReprPlain | bot.py:54 | A string without quotes, backslashes or control characters is printed between single quotes exactly as it is. |
| PyRepr.ReprSingleMember | bot.py:54 | A one-member dictionary prints as `{key: value}`, with the key's and the value's `repr`. |
| Json.DictItemsSpec | bot.py:32 | The items of the dictionary `json.loads` builds from an object: no key twice, exactly the object's keys, each with the value `.get` returns (its last value), and keys ordered by their first appearance in the response text. |
| Json.DictItemsDistinct | bot.py:32 | When no key repeats, the dictionary's items are the object's members, unchanged and in order. |
| PyRepr.ReprDict | bot.py:54 | Any object prints as `{`, then its dictionary items as `key: value` separated by commas, then `}`. So a repeated key is printed once, at its first place, with its last value. |
| PyRepr.ReprDistinctKeys | bot.py:54 | When no key repeats, the dictionary prints every member as `key: value`, in the order of the response text, separated by commas, between braces. |
| Scenarios.ValidNumberScenario | bot.py:21-49 | A padded valid US number, answered by the newer endpoint, gives one request and the report with every field verbatim in its fixed order. |
| Scenarios.LegacyInvalidScenario | bot.py:35-51 | When the newer endpoint answers with a `message`, the legacy endpoint is asked too, and its "invalid" answer decides the reply. |
| Scenarios.NonBooleanValidScenario | bot.py:42-54 | A `valid` field that is the number 1 is neither true nor false, so the payload is reported as an API error after a single request. |
| Scenarios.NonBooleanPayloadText | bot.py:54 | That payload prints as `{'valid': 1}`. |
| Scenarios.ShortMessageScenario | bot.py:66-72 | A message of seven characters inside whitespace gets only the usage hint, and nothing is requested. |

## Left out

- aiogram set-up, the `/start` command and `message.answer` (bot.py:17-19, 60-62, 68-72). These are chat transport; the model returns the texts the handler would send, in order.
- Telegram's Markdown rendering of the result (bot.py:70). This is formatting done outside the program.
- The aiohttp health-check server, `main` and `asyncio.run` (bot.py:75-91). This is process plumbing.
- `os.getenv` and logging (bot.py:10-15). The key is an `Option<string>` parameter, and unset and empty both count as missing.
- `requests.get` and `response.json()` (bot.py:31-32, 38-39). They are foreign network and JSON-decoding calls. Each exchange is a `Fetch` parameter, and a failure carries the text `str(e)` would print.
- `requests.get` is called without a timeout (bot.py:31, 38). An exchange that never completes is not modelled: each `Fetch` ends in a body or an exception.
- URL encoding of the query by `requests`. The request URL is kept as the f-string builds it.
- JSON numbers with a fraction or exponent. Numbers are integers, so the printing of Python floats is not modelled.
- PyRepr.Repr: non-printable characters above U+007F are printed as themselves. Python writes them as `\x..`, `\u....` or `\U........` escapes.
- Bot.CheckNumber: a message without text, where `message.text` is `None`, is not modelled. The text is a `string` parameter.
