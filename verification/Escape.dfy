/** The bounded JSON escaper and the payload it feeds (src/modules/learning/learning_evidence.c). A C
    string is the sequence of its bytes before the NUL, one `char` below 256 each. */
module Escape {
  import opened Options

  const HEX: string := "0123456789abcdef"

  /** What one byte is escaped to: itself, `\c`, or `\u` and four digits. */
  function EscapeOf(c: char): (e: string)
    ensures 1 <= |e| <= 6
  {
    if c == '"' || c == '\\' then ['\\', c]
    else if c < ' ' then ['\\', 'u', '0', '0', HEX[c as int / 16], HEX[c as int % 16]]
    else [c]
  }

  function EscapeAll(s: string): string {
    if s == [] then [] else EscapeOf(s[0]) + EscapeAll(s[1..])
  }

  lemma {:induction false} EscapeOneMore(s: string, c: char)
    ensures EscapeAll(s + [c]) == EscapeAll(s) + EscapeOf(c)
  {
    if s == [] {
      assert [c][1..] == [];
    } else {
      assert (s + [c])[0] == s[0] && (s + [c])[1..] == s[1..] + [c];
      EscapeOneMore(s[1..], c);
    }
  }

  // ---------------------------------------------- RFC 8259, section 7, backwards

  function Digit(c: char): int {
    if '0' <= c <= '9' then c as int - '0' as int
    else if 'a' <= c <= 'f' then c as int - 'a' as int + 10
    else if 'A' <= c <= 'F' then c as int - 'A' as int + 10
    else -1
  }

  predicate FourDigits(s: string) {
    |s| >= 4 && Digit(s[0]) >= 0 && Digit(s[1]) >= 0 && Digit(s[2]) >= 0 && Digit(s[3]) >= 0
  }

  function Code(s: string): (n: int)
    requires FourDigits(s)
    ensures 0 <= n < 0x1_0000
  {
    Digit(s[0]) * 0x1000 + Digit(s[1]) * 0x100 + Digit(s[2]) * 0x10 + Digit(s[3])
  }

  /** The UTF-8 bytes of a code point below 0x10000. */
  function Utf8(n: int): string
    requires 0 <= n < 0x1_0000
  {
    if n < 0x80 then [n as char]
    else if n < 0x800 then [(0xC0 + n / 0x40) as char, (0x80 + n % 0x40) as char]
    else [(0xE0 + n / 0x1000) as char, (0x80 + n / 0x40 % 0x40) as char, (0x80 + n % 0x40) as char]
  }

  predicate Surrogate(n: int) { 0xD800 <= n < 0xE000 }

  /** The character of a two-character escape. */
  function Short(c: char): Option<char> {
    if c == '"' || c == '\\' || c == '/' then Some(c)
    else if c == 'b' then Some(8 as char)
    else if c == 'f' then Some(12 as char)
    else if c == 'n' then Some('\n')
    else if c == 'r' then Some('\r')
    else if c == 't' then Some('\t')
    else None
  }

  function Prepend(s: string, rest: Option<string>): Option<string> {
    if rest.None? then None else Some(s + rest.value)
  }

  /** The bytes between the quotes of a JSON string, decoded. Raw quotes, raw control characters, unknown or
      unfinished escapes (and, as they are not needed here, surrogates) are no such string. */
  function Unescape(s: string): Option<string> {
    if s == [] then Some([])
    else if s[0] == '"' || s[0] < ' ' then None
    else if s[0] != '\\' then Prepend([s[0]], Unescape(s[1..]))
    else if |s| < 2 then None
    else if s[1] == 'u' then
      if !FourDigits(s[2..]) || Surrogate(Code(s[2..])) then None
      else Prepend(Utf8(Code(s[2..])), Unescape(s[6..]))
    else if Short(s[1]).None? then None
    else Prepend([Short(s[1]).value], Unescape(s[2..]))
  }

  lemma HexDigit(h: int)
    requires 0 <= h < 16
    ensures Digit(HEX[h]) == h
  {}

  /** One escape is read back as the byte it stands for, whatever follows it. */
  lemma UnescapeOne(c: char, rest: string)
    ensures Unescape(EscapeOf(c) + rest) == Prepend([c], Unescape(rest))
  {
    var e := EscapeOf(c);
    var s := e + rest;
    assert s[|e|..] == rest;
    if c == '"' || c == '\\' {
      assert s[0] == '\\' && s[1] == c && s[2..] == rest;
    } else if c < ' ' {
      var n := c as int;
      HexDigit(n / 16);
      HexDigit(n % 16);
      var d := s[2..];
      assert s[0] == '\\' && s[1] == 'u' && s[6..] == rest;
      assert d[0] == '0' && d[1] == '0' && d[2] == HEX[n / 16] && d[3] == HEX[n % 16];
      assert FourDigits(d) && Code(d) == n;
    }
  }

  /** Only what must be escaped is: a byte is left alone exactly when it may stand alone in a JSON string, which
      only the quote, the backslash and the bytes below 32 may not. */
  lemma EscapeExactly(c: char)
    ensures EscapeOf(c) == [c] <==> c != '"' && c != '\\' && c as int >= 32
    ensures EscapeOf(c) == [c] <==> Unescape([c]) == Some([c])
    ensures c == '"' || c == '\\' ==> EscapeOf(c) == ['\\', c]
    ensures c as int < 32 ==>
      var (n, e) := (c as int, EscapeOf(c));
      |e| == 6 && e[..4] == "\\u00" && e[4] == (if n < 16 then '0' else '1')
      && e[5] as int == (if n % 16 < 10 then '0' as int + n % 16 else 'a' as int + n % 16 - 10)
  {
    var e := EscapeOf(c);
    if c as int < 32 {
      assert e[..4] == ['\\', 'u', '0', '0'];
    } else {
      assert [c][1..] == [] && [c] + [] == [c] && Unescape([]) == Some([]);
      assert Unescape([c]) == if c == '"' || c == '\\' then None else Prepend([c], Some([]));
    }
  }

  /** Escaping loses nothing: every string comes back, so no raw quote or control byte is ever written. */
  lemma {:induction false} UnescapeOfEscape(s: string)
    ensures Unescape(EscapeAll(s)) == Some(s)
  {
    if s != [] {
      UnescapeOne(s[0], EscapeAll(s[1..]));
      UnescapeOfEscape(s[1..]);
      assert s == [s[0]] + s[1..];
    }
  }

  /** Different contents have different escapes. */
  lemma EscapeIsInjective(s: string, t: string)
    requires EscapeAll(s) == EscapeAll(t)
    ensures s == t
  {
    UnescapeOfEscape(s);
    UnescapeOfEscape(t);
  }

  // -------------------------------------------------------------- the bounded loop

  /** How many bytes of `s` are escaped into a buffer of `len`, when `o` bytes are already written. */
  function Taken(s: string, o: nat, len: nat): (n: nat)
    ensures n <= |s|
  {
    if s == [] || o + 7 >= len then 0 else 1 + Taken(s[1..], o + |EscapeOf(s[0])|, len)
  }

  /** `json_escape_into`: whole escapes only, at most `len - 1` bytes and the NUL, and everything unless the
      buffer ran out of room. */
  method JsonEscapeInto(src: Option<string>, buf: array<char>) returns (o: nat)
    requires buf.Length >= 1
    modifies buf
    ensures o < buf.Length && buf[o] == '\0'
    ensures var s := if src.None? then "" else src.value;
      var n := Taken(s, 0, buf.Length);
      buf[..o] == EscapeAll(s[..n]) && Unescape(buf[..o]) == Some(s[..n])
      && (n < |s| ==> o + 7 >= buf.Length) && (buf.Length > 8 ==> o <= buf.Length - 2)
  {
    hide EscapeOf, Unescape;
    var s := if src.None? then "" else src.value;
    o := 0;
    var p := 0;
    while p < |s| && o + 7 < buf.Length
      invariant 0 <= p <= |s| && o < buf.Length && (buf.Length > 8 ==> o <= buf.Length - 2)
      invariant buf[..o] == EscapeAll(s[..p])
      invariant Taken(s, 0, buf.Length) == p + Taken(s[p..], o, buf.Length)
    {
      var c := s[p];
      EscapeOneMore(s[..p], c);
      assert s[..p + 1] == s[..p] + [c] && s[p..][1..] == s[p + 1..];
      o := Store(c, buf, o);
      p := p + 1;
    }
    buf[o] := '\0';
    UnescapeOfEscape(s[..p]);
  }

  /** Writes one escape; the formatted kind also writes a NUL behind itself. */
  method Store(c: char, buf: array<char>, o: nat) returns (o': nat)
    requires o + 7 < buf.Length
    modifies buf
    ensures o' == o + |EscapeOf(c)| && buf[..o'] == old(buf[..o]) + EscapeOf(c)
  {
    if c == '"' || c == '\\' {
      buf[o], buf[o + 1] := '\\', c;
      o' := o + 2;
    } else if c < ' ' {
      buf[o], buf[o + 1], buf[o + 2], buf[o + 3] := '\\', 'u', '0', '0';
      buf[o + 4], buf[o + 5], buf[o + 6] := HEX[c as int / 16], HEX[c as int % 16], '\0';
      o' := o + 6;
    } else {
      buf[o] := c;
      o' := o + 1;
    }
  }

  // ------------------------------------------------------------------- the payload

  const ESC_LEN: nat := 1024
  const PAYLOAD_LEN: nat := 1280

  const KINDS: seq<string> := ["session_turn", "session_summary", "feedback_positive", "feedback_negative",
                               "tool_outcome", "guardrail_event", "benchmark_trace", "workflow_pattern"]

  /** The kinds the capture path admits. */
  predicate Admitted(kind: string) {
    kind == "session_turn" || kind == "session_summary" || kind == "feedback_positive" || kind == "feedback_negative"
    || kind == "tool_outcome" || kind == "guardrail_event" || kind == "benchmark_trace" || kind == "workflow_pattern"
  }

  lemma AdmittedIsListed(kind: string)
    ensures Admitted(kind) <==> kind in KINDS
  {
    if Admitted(kind) {
      assert KINDS[0] in KINDS && KINDS[1] in KINDS && KINDS[2] in KINDS && KINDS[3] in KINDS;
      assert KINDS[4] in KINDS && KINDS[5] in KINDS && KINDS[6] in KINDS && KINDS[7] in KINDS;
    }
  }

  method EvidenceKindAllowed(kind: Option<string>) returns (ok: bool)
    ensures ok <==> kind.Some? && Admitted(kind.value)
  {
    if kind.Some? { AdmittedIsListed(kind.value); }
    hide Admitted;
    if kind.None? { return false; }
    for i := 0 to |KINDS|
      invariant kind.value !in KINDS[..i]
    {
      if KINDS[i] == kind.value { return true; }
      assert KINDS[..i + 1] == KINDS[..i] + [KINDS[i]];
    }
    assert KINDS[..|KINDS|] == KINDS;
    return false;
  }

  function Default(s: Option<string>, d: string): string { if s.None? then d else s.value }

  /** The payload without a size limit. The scope fields go in as they are; only the content is escaped. */
  function Payload(kind: string, scopeKind: string, scopeId: string, hash: string, esc: string): string {
    "{\"source_kind\":\"" + kind + "\",\"scope_kind\":\"" + scopeKind + "\",\"scope_id\":\"" + scopeId
    + "\",\"content_hash\":\"" + hash + "\",\"content\":\"" + esc + "\"}"
  }

  lemma PayloadLength(kind: string, scopeKind: string, scopeId: string, hash: string, esc: string)
    ensures |Payload(kind, scopeKind, scopeId, hash, esc)| == 79 + |kind| + |scopeKind| + |scopeId| + |hash| + |esc|
  {}

  /** What the escaper leaves of a content in its 1024-byte buffer. */
  function Escaped(content: string): string { EscapeAll(content[..Taken(content, 0, ESC_LEN)]) }

  lemma {:induction false} TakenFits(s: string, o: nat, len: nat)
    requires len > 8 && o <= len - 2
    ensures o + |EscapeAll(s[..Taken(s, o, len)])| <= len - 2
  {
    hide EscapeOf;
    if s != [] && o + 7 < len {
      var n := Taken(s, o, len);
      assert s[..n][0] == s[0] && s[..n][1..] == s[1..][..n - 1];
      TakenFits(s[1..], o + |EscapeOf(s[0])|, len);
    }
  }

  /** `snprintf` cuts nothing off. */
  predicate Whole(kind: string, scopeKind: string, scopeId: string, hash: string, content: string) {
    |Payload(kind, scopeKind, scopeId, hash, Escaped(content))| < PAYLOAD_LEN
  }

  lemma KindLength(kind: string)
    requires kind in KINDS
    ensures |kind| <= 17
  {}

  /** For scope fields of up to 145 bytes together the payload is whole, whatever the kind and the content. */
  lemma PayloadIsWhole(kind: string, scopeKind: string, scopeId: string, hash: string, content: string)
    requires kind in KINDS && |hash| == 16 && |scopeKind| + |scopeId| <= 145
    ensures Whole(kind, scopeKind, scopeId, hash, content)
  {
    hide EscapeAll, Taken, Payload;
    KindLength(kind);
    TakenFits(content, 0, ESC_LEN);
    assert Escaped(content) == EscapeAll(content[..Taken(content, 0, ESC_LEN)]);
    PayloadLength(kind, scopeKind, scopeId, hash, Escaped(content));
  }

  /** And for longer ones it is cut for some content of the kind `feedback_positive`: 145 is exact. */
  lemma PayloadIsCut(scopeKind: string, scopeId: string, hash: string) returns (content: string)
    requires |hash| == 16 && |scopeKind| + |scopeId| > 145
    ensures !Whole("feedback_positive", scopeKind, scopeId, hash, content)
  {
    content := seq(1016, _ => 'a') + ['\n'];
    Filled(1016, 0);
    assert content[..1017] == content;
    PayloadLength("feedback_positive", scopeKind, scopeId, hash, Escaped(content));
  }

  /** Plain bytes up to place 1016 leave room for one last long escape. */
  lemma {:induction false} Filled(n: nat, o: nat)
    requires n + o == 1016
    ensures var s := seq(n, _ => 'a') + ['\n'];
      Taken(s, o, ESC_LEN) == n + 1 && |EscapeAll(s)| == n + 6
    decreases n
  {
    var s := seq(n, _ => 'a') + ['\n'];
    if n == 0 {
      assert s[1..] == [];
    } else {
      assert s[0] == 'a' && s[1..] == seq(n - 1, _ => 'a') + ['\n'];
      Filled(n - 1, o + 1);
    }
  }

  /** The capture up to the payload: the kind is checked, the content escaped, the payload formatted and
      cut to its buffer. */
  method BuildPayload(kind: Option<string>, scopeKind: Option<string>, scopeId: Option<string>,
      content: Option<string>, hash: string)
      returns (payload: Option<string>)
    requires |hash| == 16
    ensures payload.Some? <==> kind.Some? && Admitted(kind.value) && content.Some?
    ensures payload.Some? ==>
              var full := Payload(kind.value, if scopeKind.None? then "user" else scopeKind.value,
                                  if scopeId.None? then "" else scopeId.value, hash,
                                  EscapeAll(content.value[..Taken(content.value, 0, 1024)]));
              payload.value == (if |full| < 1280 then full else full[..1279])
  {
    hide EscapeAll, Taken, Payload, Unescape, Admitted;
    var ok := EvidenceKindAllowed(kind);
    if !ok || content.None? { return None; }
    var esc := new char[ESC_LEN];
    var o := JsonEscapeInto(content, esc);
    var full := Payload(kind.value, Default(scopeKind, "user"), Default(scopeId, ""), hash, esc[..o]);
    payload := Some(if |full| < PAYLOAD_LEN then full else full[..PAYLOAD_LEN - 1]);
  }
}
