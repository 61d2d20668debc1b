/** Concrete runs of the handler, written out reply by reply. */
module Scenarios {
  import opened Json
  import opened PhoneMetadata
  import opened Bot
  import Text
  import PyRepr

  /** A number without surrounding whitespace strips to itself. */
  lemma StripUnpadded(number: string)
    requires Text.Unpadded(number)
    ensures Text.Strip(number) == number
  {
    assert Text.AllSpace("");
    assert number == "" + number + "";
    Text.StripPadding("", number, "");
  }

  /** No member is named `error` or `message`, so the fallback stays off. */
  lemma NoFallbackKeys(members: seq<(string, Json)>)
    requires forall k :: 0 <= k < |members| ==> members[k].0 != "error" && members[k].0 != "message"
    ensures WantsFallback(JObj(members)) == Value(false)
  {
  }

  /** The answer of the newer endpoint for a valid United States number. */
  const ValidUsBody: seq<(string, Json)> :=
    [("valid", JBool(true)), ("country_name", JStr("United States")),
     ("country_code", JStr("US")), ("location", JStr("California")),
     ("carrier", JStr("Verizon")), ("line_type", JStr("mobile"))]

  lemma ValidUsFirstFields()
    ensures Get(ValidUsBody, "valid") == Some(JBool(true))
    ensures Get(ValidUsBody, "country_name") == Some(JStr("United States"))
    ensures Get(ValidUsBody, "country_code") == Some(JStr("US"))
  {
    GetLast(ValidUsBody, 0);
    GetLast(ValidUsBody, 1);
    GetLast(ValidUsBody, 2);
  }

  lemma ValidUsLastFields()
    ensures Get(ValidUsBody, "location") == Some(JStr("California"))
    ensures Get(ValidUsBody, "carrier") == Some(JStr("Verizon"))
    ensures Get(ValidUsBody, "line_type") == Some(JStr("mobile"))
  {
    GetLast(ValidUsBody, 3);
    GetLast(ValidUsBody, 4);
    GetLast(ValidUsBody, 5);
  }

  const UsReport: Report :=
    Report(Some(JStr("United States")), Some(JStr("US")), Some(JStr("California")),
           Some(JStr("Verizon")), Some(JStr("mobile")))

  lemma ValidUsLookup(number: string)
    ensures Lookup(Some("k"), number, Ok(JObj(ValidUsBody)), Fail("unused"))
            == Run(Valid(UsReport), [PrimaryRequest(number, "k")])
  {
    assert WantsFallback(JObj(ValidUsBody)) == Value(false) by {
      NoFallbackKeys(ValidUsBody);
    }
    assert Judge(JObj(ValidUsBody)) == Valid(UsReport) by {
      ValidUsFirstFields();
      ValidUsLastFields();
    }
  }

  /** The number as a user might paste it, between a space and a newline. */
  const PaddedUsText: string := " +14155552671\n"

  lemma PaddedUsNumber()
    ensures Text.Strip(PaddedUsText) == "+14155552671"
  {
    var number := "+14155552671";
    assert Text.AllSpace(" ") && Text.AllSpace("\n");
    assert Text.Unpadded(number);
    assert PaddedUsText == " " + number + "\n";
    Text.StripPadding(" ", number, "\n");
  }

  /** A valid number answered by the newer endpoint: one request, and the
      report with every field verbatim in its fixed order. */
  lemma ValidNumberScenario()
    ensures var t := CheckNumber(PaddedUsText, Some("k"), Ok(JObj(ValidUsBody)), Fail("unused"));
            && t.requests == [PrimaryRequest("+14155552671", "k")]
            && t.replies == [CheckingText,
                             Text.JoinLines([
                               "\U{2705} **Valid Number**",
                               "\U{1F3F3}\U{FE0F} **Country:** " + "United States" + " (" + "US" + ")",
                               "\U{1F4CD} **Location:** " + "California",
                               "\U{1F3E2} **Carrier:** " + "Verizon",
                               "\U{1F4DE} **Line Type:** " + "mobile"])]
  {
    PaddedUsNumber();
    ValidUsLookup("+14155552671");
  }

  /** What the newer endpoint answers to a key issued for the legacy one. */
  const CredentialsMessage: seq<(string, Json)> := [("message", JStr("Invalid authentication credentials"))]

  /** What the legacy endpoint answers for a number it does not know. */
  const LegacyInvalidBody: seq<(string, Json)> := [("valid", JBool(false)), ("number", JStr("10000000000"))]

  lemma MessageTriggersFallback()
    ensures WantsFallback(JObj(CredentialsMessage)) == Value(true)
  {
    assert CredentialsMessage[0].0 == "message";
  }

  lemma LegacySaysInvalid()
    ensures Judge(JObj(LegacyInvalidBody)) == Invalid
  {
    GetLast(LegacyInvalidBody, 0);
  }

  /** A legacy key: the newer endpoint answers with a `message`, the legacy
      endpoint says the number is invalid, and only the second answer counts. */
  lemma LegacyInvalidScenario()
    ensures var t := CheckNumber("+10000000000", Some("k"), Ok(JObj(CredentialsMessage)), Ok(JObj(LegacyInvalidBody)));
            && t.requests == [PrimaryRequest("+10000000000", "k"), LegacyRequest("+10000000000", "k")]
            && t.replies == [CheckingText, InvalidText]
  {
    StripUnpadded("+10000000000");
    MessageTriggersFallback();
    LegacySaysInvalid();
  }

  /** A `valid` field that is a number rather than a boolean. */
  const NumericValid: seq<(string, Json)> := [("valid", JNum(1))]

  /** `valid` present but not a boolean is neither valid nor invalid: the
      reply shows the payload as Python prints the dictionary. */
  lemma NonBooleanValidScenario()
    ensures Lookup(Some("k"), "+10000000000", Ok(JObj(NumericValid)), Fail("unused"))
              == Run(ApiError(JObj(NumericValid)), [PrimaryRequest("+10000000000", "k")])
  {
    assert WantsFallback(JObj(NumericValid)) == Value(false) by {
      NoFallbackKeys(NumericValid);
    }
    assert Judge(JObj(NumericValid)) == ApiError(JObj(NumericValid)) by {
      GetLast(NumericValid, 0);
    }
  }

  lemma ValidKeyText()
    ensures PyRepr.ReprStr("valid") == "'valid'"
  {
    PyRepr.ReprPlain("valid");
  }

  /** The payload of the previous scenario, as the reply prints it. */
  lemma NonBooleanPayloadText()
    ensures PyRepr.Repr(JObj(NumericValid)) == "{'valid': 1}"
  {
    assert PyRepr.Repr(JObj(NumericValid)) == "{" + "'valid'" + ": " + "1" + "}" by {
      PyRepr.ReprSingleMember("valid", JNum(1));
      ValidKeyText();
      assert PyRepr.Repr(JNum(1)) == "1";
    }
  }

  /** Seven characters between spaces. */
  const ShortText: string := "  1234567  "

  /** A short message gets only the usage hint, and nothing is requested. */
  lemma ShortMessageScenario()
    ensures CheckNumber(ShortText, Some("k"), Fail("unused"), Fail("unused")) == Turn([UsageHint], [])
  {
    assert Text.Strip(ShortText) == "1234567" by {
      assert Text.AllSpace("  ");
      assert Text.Unpadded("1234567");
      assert ShortText == "  " + "1234567" + "  ";
      Text.StripPadding("  ", "1234567", "  ");
    }
  }
}
