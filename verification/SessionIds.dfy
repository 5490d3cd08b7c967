/** Session ids: percent-encoded fields joined with ':', and the composite
    dedup keys built from them. */
module SessionIds {
  import opened Wrappers
  import opened Text

  /** Sanitized identity fields. */
  datatype Fields = Fields(channelId: string, accountId: string, conversationId: string, sessionKey: string)

  function EncodeChar(c: char): string {
    if c == '%' then "%25" else if c == ':' then "%3A" else [c]
  }

  function EncodeIdField(s: string): string {
    if s == [] then [] else EncodeChar(s[0]) + EncodeIdField(s[1..])
  }

  function DecodeIdField(s: string): string {
    if s == [] then []
    else if |s| >= 3 && s[..3] == "%25" then "%" + DecodeIdField(s[3..])
    else if |s| >= 3 && s[..3] == "%3A" then ":" + DecodeIdField(s[3..])
    else [s[0]] + DecodeIdField(s[1..])
  }

  /** Only ':' and '%' are written differently, as their percent codes. */
  lemma {:induction false} EncodeMeans(s: string, t: string, c: char)
    ensures EncodeIdField(s + t) == EncodeIdField(s) + EncodeIdField(t)
    ensures EncodeIdField([c]) == if c == ':' then "%3A" else if c == '%' then "%25" else [c]
  {
    assert [c][1..] == [];
    if s == [] {
      assert s + t == t;
    } else {
      assert (s + t)[1..] == s[1..] + t;
      EncodeMeans(s[1..], t, c);
    }
  }

  function EncodeFields(f: Fields): Fields {
    Fields(EncodeIdField(f.channelId), EncodeIdField(f.accountId),
           EncodeIdField(f.conversationId), EncodeIdField(f.sessionKey))
  }

  function Segments(f: Fields): seq<string> {
    ["openclaw", f.channelId, f.accountId, f.conversationId, f.sessionKey]
  }

  function ComposeSessionId(f: Fields): string {
    Join(Segments(EncodeFields(f)), ":")
  }

  /** The text of an id: the four fields in this order, each encoded. */
  lemma ComposedText(f: Fields)
    ensures ComposeSessionId(f) ==
            "openclaw" + ":" + (EncodeIdField(f.channelId) + ":" + (EncodeIdField(f.accountId) + ":" +
            (EncodeIdField(f.conversationId) + ":" + EncodeIdField(f.sessionKey))))
  {
    hide EncodeIdField;
    var parts := Segments(EncodeFields(f));
    var p1, p2, p3 := parts[1..], parts[2..], parts[3..];
    assert p1[1..] == p2 && p2[1..] == p3 && p3[1..] == [parts[4]];
    assert Join([parts[4]], ":") == parts[4];
    assert Join(p3, ":") == p3[0] + ":" + Join([parts[4]], ":");
    assert Join(p2, ":") == p2[0] + ":" + Join(p3, ":");
    assert Join(p1, ":") == p1[0] + ":" + Join(p2, ":");
    assert Join(parts, ":") == parts[0] + ":" + Join(p1, ":");
  }

  /** The encoded fields of a five-part id, or nothing. */
  function ParseComposedSessionId(id: string): Option<Fields> {
    var parts := Split(id, ':');
    if |parts| != 5 || parts[0] != "openclaw" then None
    else Some(Fields(parts[1], parts[2], parts[3], parts[4]))
  }

  function DedupKey(sessionId: string, turnId: string): string {
    sessionId + "::" + turnId
  }

  function SessionIdFromDedupKey(key: string): string {
    if !("openclaw:" <= key) then []
    else
      var parts := Split(key, ':');
      if |parts| < 5 then []
      else
        var id := Join(parts[..5], ":");
        if ParseComposedSessionId(id).Some? then id else []
  }

  /** Key under which direct-channel markers are kept. */
  function ExternalCursorKey(sessionKey: string): string {
    Join(["openclaw", "transcript", EncodeIdField(sessionKey)], ":")
  }

  // ----- Encoding -------------------------------------------------------------------

  lemma {:induction false} EncodedHasNoColon(s: string)
    ensures ':' !in EncodeIdField(s)
  {
    if s != [] { EncodedHasNoColon(s[1..]); }
  }

  lemma {:induction false} DecodeEncode(s: string)
    ensures DecodeIdField(EncodeIdField(s)) == s
  {
    if s != [] {
      DecodeEncode(s[1..]);
      var rest := EncodeIdField(s[1..]);
      var all := EncodeChar(s[0]) + rest;
      if s[0] == '%' || s[0] == ':' {
        assert all[..3] == EncodeChar(s[0]) && all[3..] == rest;
      } else {
        assert all[0] == s[0] && all[1..] == rest;
        if |all| >= 3 { assert all[..3][0] == s[0]; }
      }
      assert [s[0]] + s[1..] == s;
    }
  }

  lemma DecodeFields(f: Fields)
    ensures var e := EncodeFields(f);
            f == Fields(DecodeIdField(e.channelId), DecodeIdField(e.accountId),
                        DecodeIdField(e.conversationId), DecodeIdField(e.sessionKey))
  {
    DecodeEncode(f.channelId);
    DecodeEncode(f.accountId);
    DecodeEncode(f.conversationId);
    DecodeEncode(f.sessionKey);
  }

  lemma SegmentsHaveNoColon(f: Fields)
    ensures var parts := Segments(EncodeFields(f));
            forall i :: 0 <= i < |parts| ==> ':' !in parts[i]
  {
    EncodedHasNoColon(f.channelId);
    EncodedHasNoColon(f.accountId);
    EncodedHasNoColon(f.conversationId);
    EncodedHasNoColon(f.sessionKey);
  }

  lemma SplitSessionId(f: Fields)
    ensures Split(ComposeSessionId(f), ':') == Segments(EncodeFields(f))
  {
    SegmentsHaveNoColon(f);
    assert ":" == [':'];
    SplitJoin(Segments(EncodeFields(f)), ':');
  }

  /** A composed id parses back to its encoded fields, which decode to the fields. */
  lemma ParseCompose(f: Fields)
    ensures ParseComposedSessionId(ComposeSessionId(f)) == Some(EncodeFields(f))
    ensures forall g :: ComposeSessionId(f) == ComposeSessionId(g) ==> f == g
  {
    SplitSessionId(f);
    forall g | ComposeSessionId(f) == ComposeSessionId(g) ensures f == g {
      SplitSessionId(g);
      assert Segments(EncodeFields(f)) == Segments(EncodeFields(g));
      assert EncodeFields(f) == EncodeFields(g) by {
        var p, q := Segments(EncodeFields(f)), Segments(EncodeFields(g));
        assert p[1] == q[1] && p[2] == q[2] && p[3] == q[3] && p[4] == q[4];
      }
      DecodeFields(f);
      DecodeFields(g);
    }
  }

  // ----- Dedup keys ------------------------------------------------------------------

  lemma {:induction false} SplitAppend(a: string, b: string, c: char)
    ensures Split(a + [c] + b, c) == Split(a, c) + Split(b, c)
  {
    if a == [] {
      assert a + [c] + b == [c] + b;
      assert ([c] + b)[1..] == b;
    } else {
      assert (a + [c] + b)[1..] == a[1..] + [c] + b;
      SplitAppend(a[1..], b, c);
    }
  }

  lemma {:induction false} JoinSplit(s: string, c: char)
    ensures Join(Split(s, c), [c]) == s
  {
    if s != [] {
      JoinSplit(s[1..], c);
      var rest := Split(s[1..], c);
      if s[0] == c {
        assert ([[]] + rest)[1..] == rest;
        assert [] + [c] + s[1..] == s;
      } else {
        var parts := [[s[0]] + rest[0]] + rest[1..];
        if |rest| == 1 {
          assert [s[0]] + rest[0] == s;
        } else {
          assert parts[1..] == rest[1..];
          assert [s[0]] + rest[0] + [c] + Join(rest[1..], [c]) == [s[0]] + (rest[0] + [c] + Join(rest[1..], [c]));
          assert [s[0]] + s[1..] == s;
        }
      }
    }
  }

  /** A key's parts start with those of what stands before its "::". */
  lemma KeyParts(id: string, turnId: string, segments: seq<string>)
    requires Split(id, ':') == segments && |segments| == 5
    ensures var parts := Split(DedupKey(id, turnId), ':'); |parts| >= 5 && parts[..5] == segments
  {
    hide Split;
    assert DedupKey(id, turnId) == id + [':'] + (":" + turnId);
    SplitAppend(id, ":" + turnId, ':');
  }

  /** The first five parts of a dedup key are those of its session id. */
  lemma DedupKeyParts(f: Fields, turnId: string)
    ensures var parts := Split(DedupKey(ComposeSessionId(f), turnId), ':');
            |parts| >= 5 && parts[..5] == Segments(EncodeFields(f))
  {
    hide Split, DedupKey, ComposeSessionId, EncodeFields;
    SplitSessionId(f);
    KeyParts(ComposeSessionId(f), turnId, Segments(EncodeFields(f)));
  }

  lemma ComposedPrefix(f: Fields)
    ensures "openclaw:" <= ComposeSessionId(f)
  {
    var parts := Segments(EncodeFields(f));
    var rest := Join(parts[1..], ":");
    assert "openclaw:" == "openclaw" + ":";
    assert ComposeSessionId(f) == "openclaw" + ":" + rest;
  }

  lemma PrefixOfPrefix(p: string, a: string, b: string)
    requires p <= a
    ensures p <= a + b
  {
  }

  /** A dedup key yields its own session id, even with empty fields. */
  lemma DedupKeyYieldsSession(f: Fields, turnId: string)
    ensures SessionIdFromDedupKey(DedupKey(ComposeSessionId(f), turnId)) == ComposeSessionId(f)
  {
    hide Split, EncodeFields, Segments, ParseComposedSessionId;
    var id := ComposeSessionId(f);
    DedupKeyParts(f, turnId);
    ParseCompose(f);
    ComposedPrefix(f);
    PrefixOfPrefix("openclaw:", id, "::" + turnId);
    assert DedupKey(id, turnId) == id + ("::" + turnId);
  }

  /** The prefix test of a reset selects the keys of that session and no others. */
  lemma PrefixSelectsSession(f: Fields, g: Fields, turnId: string)
    ensures ComposeSessionId(f) + "::" <= DedupKey(ComposeSessionId(g), turnId) <==> f == g
  {
    var a, key := ComposeSessionId(f), DedupKey(ComposeSessionId(g), turnId);
    if a + "::" <= key {
      var rest := key[|a| + 2..];
      assert key == a + "::" + rest;
      assert key == DedupKey(a, rest);
      DedupKeyYieldsSession(f, rest);
      DedupKeyYieldsSession(g, turnId);
      ParseCompose(f);
    }
    if f == g {
      assert key == a + "::" + turnId;
    }
  }

  /** A marker key is no session id. */
  lemma CursorKeyIsNoSession(sessionKey: string, f: Fields)
    ensures ParseComposedSessionId(ExternalCursorKey(sessionKey)) == None
    ensures ExternalCursorKey(sessionKey) != ComposeSessionId(f)
  {
    CursorParts(sessionKey);
    SplitSessionId(f);
    assert |Segments(EncodeFields(f))| == 5;
    hide Split, ComposeSessionId, ExternalCursorKey, EncodeFields, Segments;
  }

  lemma CursorParts(sessionKey: string)
    ensures Split(ExternalCursorKey(sessionKey), ':') == ["openclaw", "transcript", EncodeIdField(sessionKey)]
  {
    var parts := ["openclaw", "transcript", EncodeIdField(sessionKey)];
    EncodedHasNoColon(sessionKey);
    assert ":" == [':'];
    assert forall i :: 0 <= i < 3 ==> ':' !in parts[i];
    hide Split, Join, EncodeIdField;
    SplitJoin(parts, ':');
  }

  /** Each session key has marker keys of its own. */
  lemma CursorKeysDiffer(a: string, b: string)
    requires ExternalCursorKey(a) == ExternalCursorKey(b)
    ensures a == b
  {
    hide Split, ExternalCursorKey, EncodeIdField, DecodeIdField;
    CursorParts(a);
    CursorParts(b);
    assert Split(ExternalCursorKey(a), ':')[2] == EncodeIdField(a);
    assert Split(ExternalCursorKey(b), ':')[2] == EncodeIdField(b);
    DecodeEncode(a);
    DecodeEncode(b);
  }

  /** Looking for other known ids of the same identity finds only that identity. */
  lemma ResetSelectsOneSession(f: Fields, known: string)
    requires ParseComposedSessionId(known) == Some(EncodeFields(f))
    ensures known == ComposeSessionId(f)
  {
    JoinSplit(known, ':');
    assert ":" == [':'];
    var parts := Split(known, ':');
    assert parts == Segments(EncodeFields(f));
  }
}
