/** Python's `str()` and `repr()` of decoded JSON values, which is what an
    f-string placeholder such as `{data}` or `{data.get('carrier')}` prints. */
module PyRepr {
  import opened Json

  const HexDigits: string := "0123456789abcdef"

  /** Decimal text of a natural number, most significant digit first. */
  function NatText(n: nat): (r: string)
    ensures |r| > 0
    ensures forall k :: 0 <= k < |r| ==> '0' <= r[k] <= '9'
    decreases n
  {
    var d := [('0' as int + n % 10) as char];
    if n < 10 then d else NatText(n / 10) + d
  }

  /** Python's `str(n)` for an integer. */
  function IntText(n: int): (r: string)
    ensures |r| > 0
    ensures r[0] == '-' <==> n < 0
  {
    if n < 0 then "-" + NatText(-n) else NatText(n)
  }

  /** The quote `repr` puts around a string: a double quote when the text
      holds a single quote and no double quote, a single quote otherwise. */
  function Quote(s: string): char {
    if '\'' in s && '"' !in s then '"' else '\''
  }

  /** How `repr` writes one character inside quotes `q`. Printable
      characters outside ASCII are written as they are. */
  function EscapeChar(c: char, q: char): string {
    if c == q || c == '\\' then ['\\', c]
    else if c == '\t' then "\\t"
    else if c == '\n' then "\\n"
    else if c == '\r' then "\\r"
    else if c < ' ' || (c as int) == 0x7F then
      "\\x" + [HexDigits[(c as int) / 16], HexDigits[(c as int) % 16]]
    else [c]
  }

  function Escape(s: string, q: char): string {
    if |s| == 0 then "" else EscapeChar(s[0], q) + Escape(s[1..], q)
  }

  /** Python's `repr(s)` for a string. */
  function ReprStr(s: string): string {
    var q := Quote(s);
    [q] + Escape(s, q) + [q]
  }

  /** A character `repr` writes as itself inside either kind of quote. */
  predicate PlainChar(c: char) {
    c != '\'' && c != '"' && c != '\\' && ' ' <= c && (c as int) != 0x7F
  }

  lemma {:induction false} EscapePlain(s: string, q: char)
    requires q == '\'' || q == '"'
    requires forall k :: 0 <= k < |s| ==> PlainChar(s[k])
    ensures Escape(s, q) == s
  {
    if |s| > 0 {
      EscapePlain(s[1..], q);
      assert [s[0]] + s[1..] == s;
    }
  }

  /** Text without quotes, backslashes or control characters is printed
      between single quotes exactly as it is. */
  lemma ReprPlain(s: string)
    requires forall k :: 0 <= k < |s| ==> PlainChar(s[k])
    ensures ReprStr(s) == "'" + s + "'"
  {
    assert forall k :: 0 <= k < |s| ==> s[k] != '\'';
    EscapePlain(s, '\'');
  }

  /** Python's `repr` of a decoded JSON value: `None`, `True`/`False`,
      decimal integers, quoted strings, `[a, b]` lists and `{'k': v}`
      dictionaries, one entry per distinct key in first-appearance order
      holding that key's last value. */
  function Repr(j: Json): (r: string)
    ensures |r| > 0
    decreases j, 1, 0
  {
    match j
    case JNull => "None"
    case JBool(b) => if b then "True" else "False"
    case JNum(n) => IntText(n)
    case JStr(s) => ReprStr(s)
    case JArr(items) => "[" + ReprItems(items, 0) + "]"
    case JObj(members) => "{" + ReprMembers(members, 0) + "}"
  }

  function ReprItems(items: seq<Json>, i: nat): string
    requires i <= |items|
    decreases JArr(items), 0, |items| - i
  {
    if i == |items| then ""
    else (if i > 0 then ", " else "") + Repr(items[i]) + ReprItems(items, i + 1)
  }

  /** Entries from position `i` on. The member at position 0 is always the
      first entry, so every later entry is preceded by a separator. */
  function ReprMembers(members: seq<(string, Json)>, i: nat): string
    requires i <= |members|
    decreases JObj(members), 0, |members| - i
  {
    if i == |members| then ""
    else
      var key := members[i].0;
      var rest := ReprMembers(members, i + 1);
      if LastIndexBefore(members, key, i) >= 0 then rest
      else
        var k := LastIndexOf(members, key);
        (if i > 0 then ", " else "") + ReprStr(key) + ": " + Repr(members[k].1) + rest
  }

  /** A one-member dictionary prints as `{key: value}`. */
  lemma ReprSingleMember(key: string, v: Json)
    ensures Repr(JObj([(key, v)])) == "{" + ReprStr(key) + ": " + Repr(v) + "}"
  {
    var m := [(key, v)];
    assert LastIndexBefore(m, key, 0) == -1;
    assert LastIndexOf(m, key) == 0;
    assert ReprMembers(m, 1) == "";
  }

  /** One dictionary entry as `repr` prints it: `key: value`. */
  function Entry(item: (string, Json)): string {
    ReprStr(item.0) + ": " + Repr(item.1)
  }

  /** Entries each preceded by the separator `, `. */
  function CommaEntries(items: seq<(string, Json)>): string
    decreases |items|
  {
    if |items| == 0 then "" else ", " + Entry(items[0]) + CommaEntries(items[1..])
  }

  /** Entries separated by `, `, as `repr` lists a dictionary's items. */
  function JoinEntries(items: seq<(string, Json)>): string {
    if |items| == 0 then "" else Entry(items[0]) + CommaEntries(items[1..])
  }

  lemma CommaEntriesCons(item: (string, Json), rest: seq<(string, Json)>)
    ensures CommaEntries([item] + rest) == ", " + Entry(item) + CommaEntries(rest)
  {
    assert ([item] + rest)[1..] == rest;
  }

  /** The entry printed at the first appearance of a key. */
  lemma ReprMembersEntry(members: seq<(string, Json)>, i: nat)
    requires i < |members| && LastIndexBefore(members, members[i].0, i) < 0
    ensures ReprMembers(members, i) ==
            (if i > 0 then ", " else "")
            + Entry((members[i].0, members[LastIndexOf(members, members[i].0)].1))
            + ReprMembers(members, i + 1)
  {
    var key := members[i].0;
    var v := members[LastIndexOf(members, key)].1;
    var sep: string := if i > 0 then ", " else "";
    var rest := ReprMembers(members, i + 1);
    assert ReprMembers(members, i) == sep + ReprStr(key) + ": " + Repr(v) + rest;
    Regroup(sep, ReprStr(key), ": ", Repr(v), rest);
  }

  lemma Regroup(a: string, b: string, c: string, d: string, e: string)
    ensures a + b + c + d + e == a + (b + c + d) + e
  {
  }

  /** A later appearance of a key prints nothing. */
  lemma ReprMembersSkip(members: seq<(string, Json)>, i: nat)
    requires i < |members| && LastIndexBefore(members, members[i].0, i) >= 0
    ensures ReprMembers(members, i) == ReprMembers(members, i + 1)
  {
  }

  /** From any later position, the printer lists exactly the items of the
      keys first seen there or later, each after a separator. */
  lemma {:induction false} ReprMembersTail(members: seq<(string, Json)>, i: nat)
    requires 0 < i <= |members|
    ensures ReprMembers(members, i) == CommaEntries(DictFrom(members, i))
    decreases |members| - i
  {
    if i < |members| {
      ReprMembersTail(members, i + 1);
      DictFromStep(members, i);
      if LastIndexBefore(members, members[i].0, i) >= 0 {
        ReprMembersSkip(members, i);
      } else {
        ReprMembersEntry(members, i);
        CommaEntriesCons((members[i].0, members[LastIndexOf(members, members[i].0)].1), DictFrom(members, i + 1));
      }
    }
  }

  /** A dictionary prints as the `, `-separated entries of the dictionary
      `json.loads` builds: one per distinct key, in order of first
      appearance, with the key's last value. */
  lemma ReprDict(members: seq<(string, Json)>)
    ensures Repr(JObj(members)) == "{" + JoinEntries(DictItems(members)) + "}"
  {
    assert ReprMembers(members, 0) == JoinEntries(DictItems(members)) by {
      if |members| > 0 {
        ReprMembersFirst(members);
      }
    }
  }

  lemma ReprMembersFirst(members: seq<(string, Json)>)
    requires |members| > 0
    ensures ReprMembers(members, 0) == JoinEntries(DictItems(members))
  {
    var item := (members[0].0, members[LastIndexOf(members, members[0].0)].1);
    var rest := DictFrom(members, 1);
    var d := [item] + rest;
    assert LastIndexBefore(members, members[0].0, 0) < 0;
    assert DictItems(members) == d by {
      DictFromStep(members, 0);
    }
    assert ReprMembers(members, 0) == Entry(item) + CommaEntries(rest) by {
      ReprMembersEntry(members, 0);
      ReprMembersTail(members, 1);
      assert "" + Entry(item) == Entry(item);
    }
    assert JoinEntries(d) == Entry(item) + CommaEntries(rest) by {
      assert d[0] == item && d[1..] == rest;
    }
  }

  /** Without repeated keys a dictionary prints every member, in the order
      the response text has them. */
  lemma ReprDistinctKeys(members: seq<(string, Json)>)
    requires DistinctKeys(members)
    ensures Repr(JObj(members)) == "{" + JoinEntries(members) + "}"
  {
    ReprDict(members);
    DictItemsDistinct(members);
  }

  /** Python's `str` of a decoded JSON value: a string prints as itself,
      everything else as its `repr`. */
  function Str(j: Json): string {
    if j.JStr? then j.s else Repr(j)
  }

  /** What an f-string prints for the result of `d.get(key)`: `None` when
      the key is absent. */
  function StrOpt(o: Option<Json>): (r: string)
    // an absent key and a `null` value print alike
    ensures o.None? || o == Some(JNull) ==> r == "None"
    ensures o.Some? && o.value.JStr? ==> r == o.value.s
  {
    match o
    case None => "None"
    case Some(j) => Str(j)
  }

  function IsHex(c: char): bool {
    c in HexDigits
  }

  function HexValue(c: char): (v: nat)
    ensures v < 16
    ensures IsHex(c) ==> HexDigits[v] == c
  {
    if '0' <= c <= '9' then c as int - '0' as int
    else if 'a' <= c <= 'f' then c as int - 'a' as int + 10
    else 0
  }

  /** Reads back the escapes `EscapeChar` writes: the inverse used to show
      that no information is lost when a payload is printed. */
  function Unescape(t: string): string
    decreases |t|
  {
    if |t| == 0 then ""
    else if t[0] == '\\' && |t| >= 2 then
      if t[1] == 't' then "\t" + Unescape(t[2..])
      else if t[1] == 'n' then "\n" + Unescape(t[2..])
      else if t[1] == 'r' then "\r" + Unescape(t[2..])
      else if t[1] == 'x' && |t| >= 4 && IsHex(t[2]) && IsHex(t[3]) then
        [(HexValue(t[2]) * 16 + HexValue(t[3])) as char] + Unescape(t[4..])
      else [t[1]] + Unescape(t[2..])
    else [t[0]] + Unescape(t[1..])
  }

  lemma UnescapePlain(c: char, rest: string)
    requires c != '\\'
    ensures Unescape([c] + rest) == [c] + Unescape(rest)
  {
    assert ([c] + rest)[1..] == rest;
  }

  lemma UnescapePair(c: char, rest: string)
    requires c != 'x'
    ensures Unescape(['\\', c] + rest) ==
            (if c == 't' then "\t" else if c == 'n' then "\n" else if c == 'r' then "\r" else [c])
            + Unescape(rest)
  {
    assert (['\\', c] + rest)[2..] == rest;
  }

  lemma HexDigitValue(d: nat)
    requires d < 16
    ensures IsHex(HexDigits[d]) && HexValue(HexDigits[d]) == d
  {
  }

  lemma UnescapeHex(n: nat, rest: string)
    requires n < 256
    ensures Unescape("\\x" + [HexDigits[n / 16], HexDigits[n % 16]] + rest) == [n as char] + Unescape(rest)
  {
    var hi, lo := HexDigits[n / 16], HexDigits[n % 16];
    var t := "\\x" + [hi, lo] + rest;
    HexDigitValue(n / 16);
    HexDigitValue(n % 16);
    assert t[0] == '\\' && t[1] == 'x' && t[2] == hi && t[3] == lo;
    assert t[4..] == rest;
  }

  lemma UnescapeChar(c: char, q: char, rest: string)
    requires q == '\'' || q == '"'
    ensures Unescape(EscapeChar(c, q) + rest) == [c] + Unescape(rest)
  {
    if c == q || c == '\\' {
      UnescapePair(c, rest);
    } else if c == '\t' {
      UnescapePair('t', rest);
    } else if c == '\n' {
      UnescapePair('n', rest);
    } else if c == '\r' {
      UnescapePair('r', rest);
    } else if c < ' ' || (c as int) == 0x7F {
      UnescapeHex(c as int, rest);
    } else {
      UnescapePlain(c, rest);
    }
  }

  /** Escaping inside either quote loses nothing: it can be read back. */
  lemma {:induction false} UnescapeEscape(s: string, q: char)
    requires q == '\'' || q == '"'
    ensures Unescape(Escape(s, q)) == s
  {
    if |s| > 0 {
      UnescapeChar(s[0], q, Escape(s[1..], q));
      UnescapeEscape(s[1..], q);
      assert [s[0]] + s[1..] == s;
    }
  }

  /** A string's `repr` is its text between two equal quotes, from which the
      original text is recovered exactly. */
  lemma ReprStrRoundTrip(s: string)
    ensures var r := ReprStr(s);
            && |r| >= 2 && r[0] == r[|r| - 1] == Quote(s)
            && Unescape(r[1..|r| - 1]) == s
  {
    var q := Quote(s);
    var r := ReprStr(s);
    assert r[1..|r| - 1] == Escape(s, q);
    UnescapeEscape(s, q);
  }
}
