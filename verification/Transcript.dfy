/** Turning a transcript into numbered (user, assistant) pairs. */
module Transcript {
  import opened Text

  datatype Role = User | Assistant | System | Tool

  /** `text` is the extracted text of the content; `turnIds` and `direct` are the
      correlation metadata of the direct channel. `delivered` says whether the
      channel could deliver the message, which the transcript does not show. */
  datatype Message =
    Message(role: Role, text: string, toolCalls: bool, turnIds: seq<string>, direct: bool, delivered: bool)

  datatype Pending = Pending(text: string, turnIds: seq<string>, direct: bool)

  datatype Turn = Turn(users: seq<Pending>, reply: string)

  datatype Pair = Pair(user: string, assistant: string, pairIndex: nat, externalTurnIds: seq<string>,
                       externalDirect: bool)

  /** What the pass over the messages has collected so far. */
  datatype Scan = Scan(turns: seq<Turn>, pending: seq<Pending>)

  predicate IsUserText(m: Message) {
    m.role == User && m.text != []
  }

  /** An assistant message that answers: textual and not a tool-call step. */
  predicate IsFinal(m: Message) {
    m.role == Assistant && !m.toolCalls && m.text != []
  }

  function PendingOf(m: Message): Pending {
    Pending(m.text, m.turnIds, m.direct)
  }

  function StepMessage(s: Scan, m: Message): Scan {
    if IsUserText(m) then s.(pending := s.pending + [PendingOf(m)])
    else if IsFinal(m) && s.pending != [] then Scan(s.turns + [Turn(s.pending, m.text)], [])
    else s
  }

  function ScanMessages(messages: seq<Message>): Scan {
    if messages == [] then Scan([], [])
    else StepMessage(ScanMessages(messages[..|messages| - 1]), messages[|messages| - 1])
  }

  function Texts(users: seq<Pending>): seq<string> {
    seq(|users|, i requires 0 <= i < |users| => users[i].text)
  }

  function Unique(ids: seq<string>): seq<string> {
    if ids == [] then []
    else
      var rest := Unique(ids[..|ids| - 1]);
      if ids[|ids| - 1] in rest then rest else rest + [ids[|ids| - 1]]
  }

  function MakePair(strip: string -> string, t: Turn, index: nat): Pair {
    var direct := |t.users| == 1 && t.users[0].direct;
    Pair(Join(Texts(t.users), "\n"), strip(t.reply), index,
         if direct then Unique(t.users[0].turnIds) else [], direct)
  }

  function MakePairs(strip: string -> string, turns: seq<Turn>): seq<Pair> {
    seq(|turns|, i requires 0 <= i < |turns| => MakePair(strip, turns[i], i))
  }

  /** Every pair of a transcript, in order; pair `i` has index `i`. */
  function AllPairs(strip: string -> string, messages: seq<Message>): (pairs: seq<Pair>)
    ensures forall i :: 0 <= i < |pairs| ==> pairs[i].pairIndex == i
  {
    MakePairs(strip, ScanMessages(messages).turns)
  }

  function From<T>(s: seq<T>, i: int): seq<T> {
    if i <= 0 then s else if i >= |s| then [] else s[i..]
  }

  /** The loop emits the pairs above the watermark: the tail of the one full
      sequence of pairs. */
  method ComputeDelta(strip: string -> string, messages: seq<Message>, savedUpTo: int) returns (pairs: seq<Pair>)
    ensures pairs == From(AllPairs(strip, messages), savedUpTo + 1)
  {
    hide MakePair, Join, Texts, Unique;
    pairs := [];
    var pendingUsers: seq<Pending> := [];
    var pairIndex := 0;
    ghost var turns: seq<Turn> := [];
    for n := 0 to |messages|
      invariant ScanMessages(messages[..n]) == Scan(turns, pendingUsers)
      invariant pairIndex == |turns|
      invariant pairs == From(MakePairs(strip, turns), savedUpTo + 1)
    {
      var msg := messages[n];
      assert messages[..n + 1][..n] == messages[..n];
      if msg.role == User {
        if msg.text != [] {
          pendingUsers := pendingUsers + [PendingOf(msg)];
        }
      } else if msg.role == Assistant {
        if msg.toolCalls { continue; }
        if |pendingUsers| == 0 { continue; }
        if msg.text == [] { continue; }
        ghost var turn := Turn(pendingUsers, msg.text);
        var userText := Join(Texts(pendingUsers), "\n");
        var externalDirect := |pendingUsers| == 1 && pendingUsers[0].direct;
        var externalTurnIds := if externalDirect then Unique(pendingUsers[0].turnIds) else [];
        PairOf(strip, turn, pairIndex);
        pendingUsers := [];
        assert MakePairs(strip, turns + [turn]) == MakePairs(strip, turns) + [MakePair(strip, turn, pairIndex)];
        if pairIndex > savedUpTo {
          pairs := pairs + [Pair(userText, strip(msg.text), pairIndex, externalTurnIds, externalDirect)];
        }
        turns := turns + [turn];
        pairIndex := pairIndex + 1;
      }
    }
    assert messages[..|messages|] == messages;
  }

  lemma PairOf(strip: string -> string, t: Turn, index: nat)
    ensures var direct := |t.users| == 1 && t.users[0].direct;
            MakePair(strip, t, index) ==
            Pair(Join(Texts(t.users), "\n"), strip(t.reply), index, if direct then Unique(t.users[0].turnIds) else [],
                direct)
  {
  }

  // ----- Stability -----------------------------------------------------------------

  /** Longer transcripts only append turns. */
  lemma {:induction false} ScanExtends(a: seq<Message>, b: seq<Message>)
    ensures ScanMessages(a).turns <= ScanMessages(a + b).turns
  {
    if b == [] {
      assert a + b == a;
    } else {
      assert (a + b)[..|a + b| - 1] == a + b[..|b| - 1];
      ScanExtends(a, b[..|b| - 1]);
    }
  }

  lemma PairsExtend(strip: string -> string, a: seq<Message>, b: seq<Message>)
    requires a <= b
    ensures AllPairs(strip, a) <= AllPairs(strip, b)
  {
    ScanExtends(a, b[|a|..]);
    assert a + b[|a|..] == b;
    var s, t := ScanMessages(a).turns, ScanMessages(b).turns;
    assert forall i :: 0 <= i < |s| ==> s[i] == t[i];
  }

  // ----- Where user texts go ---------------------------------------------------------

  function UserTexts(messages: seq<Message>): seq<Pending> {
    if messages == [] then []
    else
      var m := messages[|messages| - 1];
      UserTexts(messages[..|messages| - 1]) + if IsUserText(m) then [PendingOf(m)] else []
  }

  function Users(turns: seq<Turn>): seq<Pending> {
    if turns == [] then [] else Users(turns[..|turns| - 1]) + turns[|turns| - 1].users
  }

  ghost predicate Conserves(s: Scan, texts: seq<Pending>) {
    && Users(s.turns) + s.pending == texts
    && forall i :: 0 <= i < |s.turns| ==> s.turns[i].users != [] && s.turns[i].reply != []
  }

  lemma UsersSnoc(turns: seq<Turn>, t: Turn)
    ensures Users(turns + [t]) == Users(turns) + t.users
  {
    assert (turns + [t])[..|turns|] == turns;
  }

  lemma StepConserves(s: Scan, m: Message, texts: seq<Pending>)
    requires Conserves(s, texts)
    ensures Conserves(StepMessage(s, m), texts + if IsUserText(m) then [PendingOf(m)] else [])
  {
    hide Users;
    if IsUserText(m) {
      assert Users(s.turns) + (s.pending + [PendingOf(m)]) == texts + [PendingOf(m)];
    } else if IsFinal(m) && s.pending != [] {
      UsersSnoc(s.turns, Turn(s.pending, m.text));
    }
  }

  /** Every non-empty user text lands, in order, in exactly one turn or in the
      unanswered tail, and no turn is empty on either side. */
  lemma {:induction false} UserTextsConserved(messages: seq<Message>)
    ensures var s := ScanMessages(messages);
            && Users(s.turns) + s.pending == UserTexts(messages)
            && forall i :: 0 <= i < |s.turns| ==> s.turns[i].users != [] && s.turns[i].reply != []
  {
    if messages != [] {
      hide Users, StepMessage;
      var init, m := messages[..|messages| - 1], messages[|messages| - 1];
      UserTextsConserved(init);
      StepConserves(ScanMessages(init), m, UserTexts(init));
    }
  }

  // ----- The same turns, read off the text ---------------------------------------------

  /** Position of the first answering message, or the length. */
  function FirstFinal(messages: seq<Message>): (n: nat)
    ensures n <= |messages|
    ensures forall i :: 0 <= i < n ==> !IsFinal(messages[i])
    ensures n < |messages| ==> IsFinal(messages[n])
  {
    if messages == [] || IsFinal(messages[0]) then 0 else 1 + FirstFinal(messages[1..])
  }

  /** Cut the transcript at its answering messages; a segment with user text is a
      turn, a segment without is an orphan reply and is dropped. */
  function Segments(messages: seq<Message>): seq<Turn>
    decreases |messages|
  {
    var f := FirstFinal(messages);
    if f == |messages| then []
    else
      var users := UserTexts(messages[..f]);
      (if users == [] then [] else [Turn(users, messages[f].text)]) + Segments(messages[f + 1..])
  }

  lemma {:induction false} ScanConcat(a: seq<Message>, b: seq<Message>)
    requires ScanMessages(a).pending == []
    ensures ScanMessages(a + b) == Scan(ScanMessages(a).turns + ScanMessages(b).turns, ScanMessages(b).pending)
  {
    if b == [] {
      assert a + b == a;
      assert ScanMessages(a).turns + [] == ScanMessages(a).turns;
    } else {
      assert (a + b)[..|a + b| - 1] == a + b[..|b| - 1];
      ScanConcat(a, b[..|b| - 1]);
      var s := ScanMessages(b[..|b| - 1]);
      var m := b[|b| - 1];
      if IsFinal(m) && s.pending != [] {
        assert ScanMessages(a).turns + s.turns + [Turn(s.pending, m.text)]
            == ScanMessages(a).turns + (s.turns + [Turn(s.pending, m.text)]);
      }
    }
  }

  lemma {:induction false} ScanWithoutFinal(messages: seq<Message>)
    requires forall i :: 0 <= i < |messages| ==> !IsFinal(messages[i])
    ensures ScanMessages(messages) == Scan([], UserTexts(messages))
  {
    if messages != [] {
      ScanWithoutFinal(messages[..|messages| - 1]);
    }
  }

  lemma ScanSegment(before: seq<Message>, reply: Message)
    requires IsFinal(reply) && forall i :: 0 <= i < |before| ==> !IsFinal(before[i])
    ensures ScanMessages(before + [reply]) ==
            Scan(if UserTexts(before) == [] then [] else [Turn(UserTexts(before), reply.text)], [])
  {
    ScanWithoutFinal(before);
    var segment := before + [reply];
    assert segment[..|segment| - 1] == before;
  }

  /** The pass finds exactly the segments, however tool calls, empty messages
      and orphan replies are mixed in. */
  lemma {:induction false} ScanIsSegments(messages: seq<Message>)
    ensures ScanMessages(messages).turns == Segments(messages)
    decreases |messages|
  {
    hide ScanMessages, UserTexts;
    var f := FirstFinal(messages);
    if f == |messages| {
      ScanWithoutFinal(messages);
    } else {
      ScanSegment(messages[..f], messages[f]);
      ScanIsSegments(messages[f + 1..]);
      ScanConcat(messages[..f] + [messages[f]], messages[f + 1..]);
      assert messages[..f] + [messages[f]] + messages[f + 1..] == messages;
    }
  }

  // ----- In plain words ------------------------------------------------------------------------------

  /** Messages that play no part: those of other roles, users' without text,
      tool-call steps and replies without text, wherever they stand. */
  ghost predicate PlaysNoPart(m: Message) {
    || m.role == System || m.role == Tool
    || (m.role == User && |m.text| == 0)
    || (m.role == Assistant && (m.toolCalls || |m.text| == 0))
  }

  lemma {:induction false} SilentMessagesDoNotMatter(pre: seq<Message>, m: Message, post: seq<Message>)
    requires PlaysNoPart(m)
    ensures ScanMessages(pre + [m] + post) == ScanMessages(pre + post)
  {
    if post == [] {
      assert (pre + [m] + post)[..|pre|] == pre && pre + post == pre;
      assert pre + [m] + post == pre + [m];
    } else {
      var n := |post| - 1;
      assert (pre + [m] + post)[..|pre| + 1 + n] == pre + [m] + post[..n];
      assert (pre + post)[..|pre| + n] == pre + post[..n];
      SilentMessagesDoNotMatter(pre, m, post[..n]);
    }
  }

  /** Every other message has one: a user's text waits, and a reply answers all that
      waits, or is dropped when nothing does. */
  lemma SpokenMessagesMatter(pre: seq<Message>, m: Message)
    requires !PlaysNoPart(m)
    ensures var s, s' := ScanMessages(pre), ScanMessages(pre + [m]);
            if m.role == User then
              s'.turns == s.turns && s'.pending == s.pending + [Pending(m.text, m.turnIds, m.direct)]
            else if s.pending == [] then s' == s
            else s'.pending == [] && s'.turns == s.turns + [Turn(s.pending, m.text)]
  {
    assert (pre + [m])[..|pre|] == pre;
  }

  /** Ids without repetitions, in order of first appearance. */
  lemma {:induction false} UniqueMeans(ids: seq<string>)
    ensures forall id :: id in Unique(ids) <==> id in ids
    ensures forall i, j :: 0 <= i < j < |Unique(ids)| ==> Unique(ids)[i] != Unique(ids)[j]
    ensures ids != [] ==> Unique(ids[..|ids| - 1]) <= Unique(ids)
  {
    if ids != [] {
      UniqueMeans(ids[..|ids| - 1]);
      assert ids == ids[..|ids| - 1] + [ids[|ids| - 1]];
    }
  }

  /** A pair: the waiting texts joined line by line, the reply stripped, and the
      channel's ids when one directly correlated text waited alone. */
  lemma PairMeans(strip: string -> string, messages: seq<Message>, i: nat, id: string)
    requires i < |AllPairs(strip, messages)|
    ensures var pair := AllPairs(strip, messages)[i];
            var turn := ScanMessages(messages).turns[i];
            && pair.pairIndex == i && pair.assistant == strip(turn.reply)
            && (|turn.users| == 1 ==> pair.user == turn.users[0].text)
            && (|turn.users| == 2 ==> pair.user == turn.users[0].text + "\n" + turn.users[1].text)
            && (pair.externalDirect <==> |turn.users| == 1 && turn.users[0].direct)
            && (id in pair.externalTurnIds <==>
               |turn.users| == 1 && turn.users[0].direct && id in turn.users[0].turnIds)
  {
    var turn := ScanMessages(messages).turns[i];
    if |turn.users| == 1 { UniqueMeans(turn.users[0].turnIds); }
    if |turn.users| == 2 {
      var texts := Texts(turn.users);
      assert texts[1..] == [turn.users[1].text];
      assert Join(texts[1..], "\n") == turn.users[1].text;
      assert Join(texts, "\n") == texts[0] + "\n" + Join(texts[1..], "\n");
    }
  }
}
