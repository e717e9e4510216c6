/** Reading the evidence payload (src/modules/learning/learning_evidence.c) back as JSON (RFC 8259): an object of
    strings without white space. The content comes back; the scope fields do so exactly when they need no escaping. */
module PayloadReader {
  import opened Options
  import opened Escape

  /** A string from behind its opening quote on: its value and what follows the closing quote. */
  function Scan(s: string): (r: Option<(string, string)>)
    ensures r.Some? ==> |r.value.1| < |s|
  {
    if s == [] then None
    else if s[0] == '"' then Some(("", s[1..]))
    else if s[0] < ' ' then None
    else if s[0] != '\\' then Before([s[0]], Scan(s[1..]))
    else if |s| < 2 then None
    else if s[1] == 'u' then
      if !FourDigits(s[2..]) || Surrogate(Code(s[2..])) then None else Before(Utf8(Code(s[2..])), Scan(s[6..]))
    else if Short(s[1]).None? then None
    else Before([Short(s[1]).value], Scan(s[2..]))
  }

  function Before(c: string, r: Option<(string, string)>): Option<(string, string)> {
    if r.None? then None else Some((c + r.value.0, r.value.1))
  }

  /** The members of an object from behind its opening brace or a comma on. */
  function Members(s: string): Option<seq<(string, string)>>
    decreases |s|
  {
    if s == [] || s[0] != '"' then None
    else
      var key := Scan(s[1..]);
      if key.None? then None
      else
        var s1 := key.value.1;
        if |s1| < 2 || s1[0] != ':' || s1[1] != '"' then None
        else
          var value := Scan(s1[2..]);
          if value.None? then None
          else
            var s2, member := value.value.1, (key.value.0, value.value.0);
            if s2 == "}" then Some([member])
            else if s2 == [] || s2[0] != ',' then None
            else
              var rest := Members(s2[1..]);
              if rest.None? then None else Some([member] + rest.value)
  }

  function ReadObject(s: string): Option<seq<(string, string)>> {
    if s == [] || s[0] != '{' then None else Members(s[1..])
  }

  // ---------------------------------------------------------------------- strings

  /** What needs no escaping. */
  predicate Plain(s: string) { forall i :: 0 <= i < |s| ==> s[i] != '"' && s[i] != '\\' && s[i] >= ' ' }

  lemma {:induction false} ScanOfUnescape(e: string, rest: string)
    requires Unescape(e).Some?
    ensures Scan(e + ['"'] + rest) == Some((Unescape(e).value, rest))
  {
    var s := e + ['"'] + rest;
    if e == [] {
      assert s[1..] == rest;
    } else if e[0] != '\\' {
      assert s[1..] == e[1..] + ['"'] + rest;
      ScanOfUnescape(e[1..], rest);
    } else if e[1] == 'u' {
      assert s[2..] == e[2..] + ['"'] + rest && s[6..] == e[6..] + ['"'] + rest;
      ScanOfUnescape(e[6..], rest);
    } else {
      assert s[2..] == e[2..] + ['"'] + rest;
      ScanOfUnescape(e[2..], rest);
    }
  }

  lemma {:induction false} PlainIsItself(s: string)
    requires Plain(s)
    ensures Unescape(s) == Some(s)
  {
    if s != [] {
      PlainIsItself(s[1..]);
      assert s == [s[0]] + s[1..];
    }
  }

  /** What is read of a text followed by `","`: either it ends within the text, and is shorter unless the text is plain;
      or a last backslash takes the quote, and what is read ends in the comma. */
  ghost predicate Ends(s: string, r: Option<(string, string)>) {
    r.None? || (|r.value.0| <= |s| && (|r.value.0| == |s| ==> Plain(s)))
    || (s != [] && s[|s| - 1] == '\\' && r.value.0 != [] && r.value.0[|r.value.0| - 1] == ',')
  }

  lemma PlainFirst(s: string, r: Option<(string, string)>)
    requires s != [] && s[0] != '"' && s[0] != '\\' && s[0] >= ' ' && Ends(s[1..], r)
    ensures Ends(s, Before([s[0]], r))
  {
    assert Plain(s[1..]) ==> Plain(s) by {
      if Plain(s[1..]) { forall i | 0 <= i < |s| ensures s[i] != '"' && s[i] != '\\' && s[i] >= ' ' {
        if i > 0 { assert s[1..][i - 1] == s[i]; }
      } }
    }
  }

  lemma EscapeFirst(s: string, k: nat, c: string, r: Option<(string, string)>)
    requires 0 < |c| < k <= |s| && Ends(s[k..], r)
    ensures Ends(s, Before(c, r))
  {
    hide Plain;
  }

  lemma {:induction false} Ending(s: string, tail: string)
    ensures Ends(s, Scan(s + ['"', ',', '"'] + tail))
    decreases |s|
  {
    hide FourDigits, Code, Utf8, Surrogate, Short, Ends;
    var end: string := ['"', ',', '"'];
    var t := s + end + tail;
    if s == [] || s[0] == '"' || s[0] < ' ' {
      EndsAtOnce(s, Scan(t));
    } else if s[0] != '\\' {
      assert t[1..] == s[1..] + end + tail;
      Ending(s[1..], tail);
      PlainFirst(s, Scan(t[1..]));
    } else if |s| == 1 {
      QuoteTaken(tail);
      assert t[2..] == [',', '"'] + tail && t[1] == '"';
      EndsInComma(s, tail);
    } else if s[1] == 'u' {
      assert t[2..] == s[2..] + end + tail;
      DigitsInside(s[2..], tail);
      if FourDigits(t[2..]) && !Surrogate(Code(t[2..])) {
        assert t[6..] == s[6..] + end + tail;
        ShortUtf8(Code(t[2..]));
        Ending(s[6..], tail);
        EscapeFirst(s, 6, Utf8(Code(t[2..])), Scan(t[6..]));
      } else {
        NothingEnds(s);
      }
    } else {
      assert t[2..] == s[2..] + end + tail;
      if Short(s[1]).None? {
        NothingEnds(s);
      } else {
        Ending(s[2..], tail);
        EscapeFirst(s, 2, [Short(s[1]).value], Scan(t[2..]));
      }
    }
  }

  lemma NothingEnds(s: string)
    ensures Ends(s, None)
  {}

  lemma EndsAtOnce(s: string, r: Option<(string, string)>)
    requires r.None? || (r.value.0 == "" && (s == [] || s[0] == '"'))
    ensures Ends(s, r)
  {}

  lemma EndsInComma(s: string, tail: string)
    requires s == ['\\']
    ensures Ends(s, Before(['"'], Some((",", tail))))
  {}

  lemma QuoteTaken(tail: string)
    ensures Scan([',', '"'] + tail) == Some((",", tail)) && Short('"') == Some('"')
  {
    var s := [',', '"'] + tail;
    assert s[1..] == ['"'] + tail && s[1..][1..] == tail;
    assert Scan(s[1..]) == Some(("", tail));
    assert [','] + "" == ",";
  }

  lemma DigitsInside(s: string, tail: string)
    ensures |s| < 4 ==> !FourDigits(s + ['"', ',', '"'] + tail)
  {
    var t := s + ['"', ',', '"'] + tail;
    if |s| < 4 { assert t[|s|] == '"'; }
  }

  lemma ShortUtf8(n: int)
    requires 0 <= n < 0x1_0000
    ensures 1 <= |Utf8(n)| <= 3
  {}

  /** A text comes back from between quotes exactly when it is plain. */
  lemma BackWhenPlain(s: string, tail: string)
    ensures var r := Scan(s + ['"', ',', '"'] + tail);
      r.Some? && r.value.0 == s <==> Plain(s)
    ensures Plain(s) ==> Scan(s + ['"', ',', '"'] + tail) == Some((s, [',', '"'] + tail))
  {
    hide Scan, Unescape;
    Ending(s, tail);
    if Plain(s) {
      PlainIsItself(s);
      ScanOfUnescape(s, [',', '"'] + tail);
      assert s + ['"'] + ([',', '"'] + tail) == s + ['"', ',', '"'] + tail;
    }
  }

  // ------------------------------------------------------------------ the payload

  lemma KeyIsRead(key: string, after: string)
    requires Plain(key)
    ensures Scan(key + ['"', ':', '"'] + after) == Some((key, [':', '"'] + after))
  {
    hide Scan, Unescape;
    PlainIsItself(key);
    ScanOfUnescape(key, [':', '"'] + after);
    assert key + ['"'] + ([':', '"'] + after) == key + ['"', ':', '"'] + after;
  }

  /** A member whose value is not read back spoils the reading. */
  lemma BadMember(key: string, value: string, rest: string)
    requires Plain(key) && !Plain(value)
    ensures var r := Members(['"'] + key + ['"', ':', '"'] + value + ['"', ',', '"'] + rest);
      r.None? || (|r.value| > 0 && r.value[0].1 != value)
  {
    hide Scan, Unescape, Plain;
    var after := value + ['"', ',', '"'] + rest;
    KeyIsRead(key, after);
    BackWhenPlain(value, rest);
    var s := ['"'] + key + ['"', ':', '"'] + value + ['"', ',', '"'] + rest;
    assert s[1..] == key + ['"', ':', '"'] + after;
    assert ([':', '"'] + after)[2..] == after;
  }

  /** What one member contributes to what is read. */
  lemma MoreMembers(key: string, value: string, rest: string)
    requires Plain(key) && Plain(value)
    ensures var r := Members(['"'] + key + ['"', ':', '"'] + value + ['"', ',', '"'] + rest);
      var others := Members(['"'] + rest);
      r == if others.None? then None else Some([(key, value)] + others.value)
  {
    hide Scan, Unescape, Plain;
    var after := value + ['"', ',', '"'] + rest;
    KeyIsRead(key, after);
    BackWhenPlain(value, rest);
    var s := ['"'] + key + ['"', ':', '"'] + value + ['"', ',', '"'] + rest;
    assert s[1..] == key + ['"', ':', '"'] + after;
    assert ([':', '"'] + after)[2..] == after;
    assert ([',', '"'] + rest)[1..] == ['"'] + rest;
  }

  /** The last member. */
  lemma LastMember(key: string, esc: string)
    requires Plain(key) && Unescape(esc).Some?
    ensures Members(['"'] + key + ['"', ':', '"'] + esc + ['"', '}']) == Some([(key, Unescape(esc).value)])
  {
    hide Scan, Unescape, Plain;
    var after := esc + ['"', '}'];
    KeyIsRead(key, after);
    ScanOfUnescape(esc, "}");
    assert esc + ['"'] + "}" == after;
    var s := ['"'] + key + ['"', ':', '"'] + esc + ['"', '}'];
    assert s[1..] == key + ['"', ':', '"'] + after;
    assert ([':', '"'] + after)[2..] == after;
  }

  /** The members from the given one on, each from behind its opening quote. */
  function Field(key: string, value: string, rest: string): string {
    key + ['"', ':', '"'] + value + ['"', ',', '"'] + rest
  }

  function LastField(key: string, esc: string): string { key + ['"', ':', '"'] + esc + ['"', '}'] }

  lemma Regroup(a: string, kind: string, b: string, scopeKind: string, c: string, scopeId: string, d: string,
      hash: string, e: string, esc: string, f: string)
    ensures a + kind + b + scopeKind + c + scopeId + d + hash + e + esc + f
            == a + kind + (b + scopeKind + (c + scopeId + (d + hash + (e + esc + f))))
  {
    var s4 := e + esc + f;
    var s3 := d + hash + s4;
    var s2 := c + scopeId + s3;
    var p := a + kind + b + scopeKind;
    assert p + c + scopeId + d + hash + e + esc + f == p + c + scopeId + d + hash + s4;
    assert p + c + scopeId + d + hash + s4 == p + c + scopeId + s3;
    assert p + c + scopeId + s3 == p + s2;
    assert p + s2 == a + kind + (b + scopeKind + s2);
  }

  lemma Opens(open: string, lit: string, key: string, value: string, rest: string)
    requires lit == open + key + ['"', ':', '"']
    ensures lit + value + (['"', ',', '"'] + rest) == open + Field(key, value, rest)
  {
    var k := key + ['"', ':', '"'];
    assert lit == open + k;
    assert k + value + ['"', ',', '"'] + rest == Field(key, value, rest);
    assert lit + value + (['"', ',', '"'] + rest) == open + (k + value + ['"', ',', '"'] + rest);
  }

  lemma PayloadSplits(kind: string, scopeKind: string, scopeId: string, hash: string, esc: string)
    ensures var content := LastField("content", esc);
      Payload(kind, scopeKind, scopeId, hash, esc)
      == ['{', '"'] + Field("source_kind", kind, Field("scope_kind", scopeKind,
           Field("scope_id", scopeId, Field("content_hash", hash, content))))
  {
    hide Field, LastField;
    var a, b, c := "{\"source_kind\":\"", "\",\"scope_kind\":\"", "\",\"scope_id\":\"";
    var d, e, f := "\",\"content_hash\":\"", "\",\"content\":\"", "\"}";
    assert Payload(kind, scopeKind, scopeId, hash, esc)
           == a + kind + b + scopeKind + c + scopeId + d + hash + e + esc + f;
    hide Payload;
    Literals();
    Regroup(a, kind, b, scopeKind, c, scopeId, d, hash, e, esc, f);
    Parts(a, kind, b, scopeKind, c, scopeId, d, hash, e, esc, f);
  }

  lemma Literals()
    ensures "{\"source_kind\":\"" == ['{', '"'] + "source_kind" + ['"', ':', '"']
    ensures "\",\"scope_kind\":\"" == ['"', ',', '"'] + "scope_kind" + ['"', ':', '"']
    ensures "\",\"scope_id\":\"" == ['"', ',', '"'] + "scope_id" + ['"', ':', '"']
    ensures "\",\"content_hash\":\"" == ['"', ',', '"'] + "content_hash" + ['"', ':', '"']
    ensures "\",\"content\":\"" == ['"', ',', '"'] + "content" + ['"', ':', '"']
    ensures "\"}" == ['"', '}']
  {}

  lemma Parts(a: string, kind: string, b: string, scopeKind: string, c: string, scopeId: string, d: string,
      hash: string, e: string, esc: string, f: string)
    requires a == ['{', '"'] + "source_kind" + ['"', ':', '"']
    requires b == ['"', ',', '"'] + "scope_kind" + ['"', ':', '"']
    requires c == ['"', ',', '"'] + "scope_id" + ['"', ':', '"']
    requires d == ['"', ',', '"'] + "content_hash" + ['"', ':', '"']
    requires e == ['"', ',', '"'] + "content" + ['"', ':', '"'] && f == ['"', '}']
    ensures a + kind + (b + scopeKind + (c + scopeId + (d + hash + (e + esc + f))))
            == ['{', '"'] + Field("source_kind", kind, Field("scope_kind", scopeKind,
                 Field("scope_id", scopeId, Field("content_hash", hash, LastField("content", esc)))))
  {
    hide Field;
    var comma: string := ['"', ',', '"'];
    var last := LastField("content", esc);
    assert e + esc + f == comma + last;
    hide LastField;
    Opens(comma, d, "content_hash", hash, last);
    var hashed := Field("content_hash", hash, last);
    Opens(comma, c, "scope_id", scopeId, hashed);
    var scoped := Field("scope_id", scopeId, hashed);
    Opens(comma, b, "scope_kind", scopeKind, scoped);
    Opens(['{', '"'], a, "source_kind", kind, Field("scope_kind", scopeKind, scoped));
  }

  lemma KindsArePlain(kind: string)
    requires kind in KINDS
    ensures Plain(kind)
  {
    hide Plain;
    AdmittedIsListed(kind);
    SessionsArePlain();
    FeedbacksArePlain();
    OthersArePlain();
    MoreArePlain();
  }

  lemma SessionsArePlain()
    ensures Plain("session_turn") && Plain("session_summary")
  {}

  lemma FeedbacksArePlain()
    ensures Plain("feedback_positive") && Plain("feedback_negative")
  {}

  lemma OthersArePlain()
    ensures Plain("tool_outcome") && Plain("guardrail_event")
  {}

  lemma MoreArePlain()
    ensures Plain("benchmark_trace") && Plain("workflow_pattern")
  {}

  lemma KeysArePlain()
    ensures Plain("source_kind") && Plain("scope_kind") && Plain("scope_id") && Plain("content_hash")
    ensures Plain("content")
  {}

  /** What a member contributes, or that it spoils the reading. */
  lemma FieldReads(key: string, value: string, rest: string)
    requires Plain(key)
    ensures var r, others := Members(['"'] + Field(key, value, rest)), Members(['"'] + rest);
      && (Plain(value) ==> r == if others.None? then None else Some([(key, value)] + others.value))
      && (!Plain(value) ==> r.None? || (|r.value| > 0 && r.value[0].1 != value))
  {
    hide Members, Plain;
    assert ['"'] + Field(key, value, rest) == ['"'] + key + ['"', ':', '"'] + value + ['"', ',', '"'] + rest;
    if Plain(value) { MoreMembers(key, value, rest); } else { BadMember(key, value, rest); }
  }

  /** The members behind the source kind come back exactly when the scope fields are plain. */
  lemma ScopesRead(scopeKind: string, scopeId: string, rest: string, others: seq<(string, string)>)
    requires Members(['"'] + rest) == Some(others)
    ensures Members(['"'] + Field("scope_kind", scopeKind, Field("scope_id", scopeId, rest)))
            == Some([("scope_kind", scopeKind), ("scope_id", scopeId)] + others)
            <==> Plain(scopeKind) && Plain(scopeId)
  {
    hide Members, Plain, Field;
    KeysArePlain();
    var inner := Field("scope_id", scopeId, rest);
    FieldReads("scope_kind", scopeKind, inner);
    FieldReads("scope_id", scopeId, rest);
    var all := [("scope_kind", scopeKind), ("scope_id", scopeId)] + others;
    var tail := [("scope_id", scopeId)] + others;
    assert all == [("scope_kind", scopeKind)] + tail && all[0].1 == scopeKind && all[1..] == tail;
    assert tail[0].1 == scopeId;
    var r := Members(['"'] + inner);
    if Plain(scopeKind) && r.Some? {
      assert ([("scope_kind", scopeKind)] + r.value)[1..] == r.value;
    }
  }

  /** What a reader gets back from the payload of an allowed kind: the five fields as they were given, the content
      unescaped, exactly when the scope fields need no escaping, for they go in as they are. */
  lemma ReadBack(kind: string, scopeKind: string, scopeId: string, hash: string, content: string)
    requires kind in KINDS && Plain(hash)
    ensures ReadObject(Payload(kind, scopeKind, scopeId, hash, EscapeAll(content)))
            == Some([("source_kind", kind), ("scope_kind", scopeKind), ("scope_id", scopeId), ("content_hash", hash),
                     ("content", content)])
            <==> Plain(scopeKind) && Plain(scopeId)
  {
    hide Members, Plain, Field, EscapeAll, Unescape, Payload, LastField, KINDS;
    KindsArePlain(kind);
    KeysArePlain();
    UnescapeOfEscape(content);
    var esc := EscapeAll(content);
    var last := LastField("content", esc);
    ContentReads(esc);
    var hashed := Field("content_hash", hash, last);
    FieldReads("content_hash", hash, last);
    assert [("content_hash", hash)] + [("content", content)] == [("content_hash", hash), ("content", content)];
    ScopesRead(scopeKind, scopeId, hashed, [("content_hash", hash), ("content", content)]);
    var scopes := Field("scope_kind", scopeKind, Field("scope_id", scopeId, hashed));
    FieldReads("source_kind", kind, scopes);
    PayloadSplits(kind, scopeKind, scopeId, hash, esc);
    var p := Payload(kind, scopeKind, scopeId, hash, esc);
    assert p[1..] == ['"'] + Field("source_kind", kind, scopes);
    var rest := [("scope_kind", scopeKind), ("scope_id", scopeId)] + [("content_hash", hash), ("content", content)];
    var all := [("source_kind", kind)] + rest;
    assert all[1..] == rest;
    assert all == [("source_kind", kind), ("scope_kind", scopeKind), ("scope_id", scopeId), ("content_hash", hash),
                   ("content", content)];
    var r := Members(['"'] + scopes);
    if r.Some? { assert ([("source_kind", kind)] + r.value)[1..] == r.value; }
  }

  lemma ContentReads(esc: string)
    requires Unescape(esc).Some?
    ensures Members(['"'] + LastField("content", esc)) == Some([("content", Unescape(esc).value)])
  {
    hide Members, Unescape, Plain;
    KeysArePlain();
    assert ['"'] + LastField("content", esc) == ['"'] + "content" + ['"', ':', '"'] + esc + ['"', '}'];
    LastMember("content", esc);
  }

  /** A scope field with a quote in it: the reading goes wrong. */
  lemma QuotedScopeIsLost(scopeId: string, hash: string, content: string)
    requires Plain(hash)
    ensures ReadObject(Payload("tool_outcome", "a\"b", scopeId, hash, EscapeAll(content)))
            != Some([("source_kind", "tool_outcome"), ("scope_kind", "a\"b"), ("scope_id", scopeId),
                     ("content_hash", hash), ("content", content)])
  {
    assert "a\"b"[1] == '"';
    ReadBack("tool_outcome", "a\"b", scopeId, hash, content);
  }
}
