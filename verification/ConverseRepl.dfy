/**
The interactive conversation loop: lines are read until the end of the input or an exit
command, local commands are handled here, and everything else goes to the engine under the
current session. The engine's answers do not influence what is sent; the outcome of the n-th
/new is an input.
*/
module ConverseRepl {
  import opened Wrappers
  import opened Text

  datatype Session = Session(id: string)

  datatype Sent = Sent(sessionId: string, text: string)

  datatype End = Finished | ReadError

  // ----- the lines of an input

  predicate EndsLine(s: string) {
    s != "" && s[|s| - 1] == '\n'
  }

  /** bufio.Reader.ReadString('\n'): through the first line break, or all there is. */
  function FirstLine(s: string): (line: string)
    ensures HasPrefix(s, line) && IsOneLine(line)
    ensures |line| < |s| ==> EndsLine(line)
    ensures s != "" ==> line != ""
  {
    if s == "" then ""
    else if s[0] == '\n' then s[..1]
    else
      var more := FirstLine(s[1..]);
      assert s[..1 + |more|] == [s[0]] + s[1..][..|more|];
      [s[0]] + more
  }

  /** A line break stands at most at the end. */
  predicate IsOneLine(s: string) {
    forall i | 0 <= i < |s| - 1 :: s[i] != '\n'
  }

  function Lines(s: string): seq<string> {
    if s == "" then [] else [FirstLine(s)] + Lines(s[|FirstLine(s)|..])
  }

  function Concat(ls: seq<string>): string {
    if ls == [] then "" else ls[0] + Concat(ls[1..])
  }

  ghost predicate AreLines(ls: seq<string>, s: string) {
    && Concat(ls) == s
    && (forall i | 0 <= i < |ls| :: ls[i] != "" && IsOneLine(ls[i]))
    && (forall i | 0 <= i < |ls| - 1 :: EndsLine(ls[i]))
  }

  lemma {:induction false} LinesAreLines(s: string)
    ensures AreLines(Lines(s), s)
    decreases |s|
  {
    if s != "" {
      var a := FirstLine(s);
      var rest := s[|a|..];
      LinesAreLines(rest);
      assert s == a + rest;
      assert Lines(s)[1..] == Lines(rest);
      assert forall i | 0 < i < |Lines(s)| :: Lines(s)[i] == Lines(rest)[i - 1];
    }
  }

  lemma FirstLineIs(a: string, rest: string)
    requires a != "" && IsOneLine(a) && (rest == "" || EndsLine(a))
    ensures FirstLine(a + rest) == a && (a + rest)[|a|..] == rest
  {
    var line := FirstLine(a + rest);
    assert forall i | 0 <= i < |a| :: (a + rest)[i] == a[i];
    assert forall i | 0 <= i < |line| :: line[i] == (a + rest)[i] by {
      assert line == (a + rest)[..|line|];
    }
    assert line == a;
  }

  lemma {:induction false} LinesUnique(ls: seq<string>, s: string)
    requires AreLines(ls, s)
    ensures ls == Lines(s)
    decreases |ls|
  {
    if ls != [] {
      var rest := Concat(ls[1..]);
      assert AreLines(ls[1..], rest);
      LinesUnique(ls[1..], rest);
      assert rest != "" ==> |ls| > 1;
      FirstLineIs(ls[0], rest);
      assert ls == [ls[0]] + ls[1..];
    }
  }

  /** The lines of an input are the one way to cut it after its line breaks. */
  lemma LinesExactly(ls: seq<string>, s: string)
    ensures AreLines(ls, s) <==> ls == Lines(s)
  {
    LinesAreLines(s);
    if AreLines(ls, s) {
      LinesUnique(ls, s);
    }
  }

  // ----- what should be sent

  predicate IsExit(line: string) {
    Trim(line) == "/exit" || Trim(line) == "/quit"
  }

  predicate IsNew(line: string) {
    Trim(line) == "/new"
  }

  predicate IsCommand(line: string) {
    || IsExit(line) || IsNew(line) || Trim(line) == "/help" || Trim(line) == "/state"
    || Trim(line) == "/history" || Trim(line) == "/sessions"
  }

  predicate IsMessage(line: string) {
    Trim(line) != "" && !IsCommand(line)
  }

  /** The first exit command, or the number of lines. */
  function FirstExit(ls: seq<string>): (k: nat)
    ensures k <= |ls| && (k < |ls| ==> IsExit(ls[k])) && forall i | 0 <= i < k :: !IsExit(ls[i])
  {
    if ls == [] || IsExit(ls[0]) then 0 else 1 + FirstExit(ls[1..])
  }

  /** How many /new commands are among the first j lines. */
  function News(ls: seq<string>, j: nat): nat
    requires j <= |ls|
  {
    if j == 0 then 0 else News(ls, j - 1) + if IsNew(ls[j - 1]) then 1 else 0
  }

  /** The session made by the latest successful /new before line j, else the first one. */
  function SessionAt(ls: seq<string>, j: nat, first: Session, made: nat -> Option<Session>): Session
    requires j <= |ls|
  {
    if j == 0 then first
    else if IsNew(ls[j - 1]) && made(News(ls, j - 1)).Some? then made(News(ls, j - 1)).value
    else SessionAt(ls, j - 1, first, made)
  }

  /** The messages among the first j lines, trimmed and in order, each under its session. */
  function Messages(ls: seq<string>, j: nat, first: Session, made: nat -> Option<Session>): seq<Sent>
    requires j <= |ls|
  {
    if j == 0 then []
    else Messages(ls, j - 1, first, made)
         + if IsMessage(ls[j - 1]) then [Sent(SessionAt(ls, j - 1, first, made).id, Trim(ls[j - 1]))] else []
  }

  /** A line cut off by a read failure is not processed; at the end of the input it is. */
  function Usable(s: string, eof: bool): seq<string> {
    DropCut(Lines(s), eof)
  }

  function DropCut(ls: seq<string>, eof: bool): seq<string> {
    if !eof && ls != [] && !EndsLine(ls[|ls| - 1]) then ls[..|ls| - 1] else ls
  }

  lemma DropCutAfter(line: string, ls: seq<string>, eof: bool)
    requires EndsLine(line) || eof
    ensures DropCut([line] + ls, eof) == [line] + DropCut(ls, eof)
  {
    if ls != [] {
      assert ([line] + ls)[|ls|] == ls[|ls| - 1];
      assert ([line] + ls)[..|ls|] == [line] + ls[..|ls| - 1];
    }
  }

  /** The loop has processed the first k lines, none of them an exit command. */
  ghost predicate Reached(ls: seq<string>, k: nat, first: Session, made: nat -> Option<Session>,
                          sess: Session, sent: seq<Sent>, news: nat) {
    && k <= |ls| && (forall i | 0 <= i < k :: !IsExit(ls[i]))
    && sent == Messages(ls, k, first, made) && news == News(ls, k) && sess == SessionAt(ls, k, first, made)
  }

  lemma ReachedNext(ls: seq<string>, k: nat, first: Session, made: nat -> Option<Session>,
                    sess: Session, sent: seq<Sent>, news: nat)
    requires Reached(ls, k, first, made, sess, sent, news) && k < |ls| && !IsExit(ls[k])
    ensures Reached(ls, k + 1, first, made,
                    if IsNew(ls[k]) && made(news).Some? then made(news).value else sess,
                    sent + if IsMessage(ls[k]) then [Sent(sess.id, Trim(ls[k]))] else [],
                    news + if IsNew(ls[k]) then 1 else 0)
  {
  }

  lemma {:induction false} FirstExitIs(ls: seq<string>, k: nat)
    requires k <= |ls| && (forall i | 0 <= i < k :: !IsExit(ls[i])) && (k < |ls| ==> IsExit(ls[k]))
    ensures FirstExit(ls) == k
  {
    if k > 0 {
      FirstExitIs(ls[1..], k - 1);
    }
  }

  // ----- the loop

  class Conversation {
    var sess: Session
    var sessionId: string
    var sent: seq<Sent>
    var news: nat

    /** The cached session and the session id always agree. */
    ghost predicate Valid()
      reads this
    {
      sess.id == sessionId
    }

    constructor (first: Session)
      ensures Valid() && sess == first && sent == [] && news == 0
    {
      sess, sessionId, sent, news := first, first.id, [], 0;
    }

    /** handleInteractiveCommand on a trimmed line. */
    method HandleCommand(line: string, made: nat -> Option<Session>) returns (handled: bool, exit: bool)
      requires Valid() && Trim(line) == line
      modifies this`sess, this`sessionId, this`news
      ensures Valid() && handled == IsCommand(line) && exit == IsExit(line)
      ensures exit <==> line == "/exit" || line == "/quit"
      ensures handled <==> line in ["/exit", "/quit", "/help", "/state", "/history", "/sessions", "/new"]
      ensures line != "/new" ==> sess == old(sess)
      ensures sess == if IsNew(line) && made(old(news)).Some? then made(old(news)).value else old(sess)
      ensures news == old(news) + if IsNew(line) then 1 else 0
    {
      handled, exit := true, false;
      if line == "/exit" || line == "/quit" {
        exit := true;
      } else if line == "/help" || line == "/state" || line == "/history" || line == "/sessions" {
      } else if line == "/new" {
        var created := made(news);
        news := news + 1;
        if created.Some? {
          sess := created.value;
          sessionId := created.value.id;
        }
      } else {
        handled := false;
      }
    }

    /** One processed line: nothing, a command, or a message to the engine. */
    method Process(line: string, made: nat -> Option<Session>) returns (exit: bool)
      requires Valid()
      modifies this
      ensures Valid() && exit == IsExit(line)
      ensures sess == if IsNew(line) && made(old(news)).Some? then made(old(news)).value else old(sess)
      ensures news == old(news) + if IsNew(line) then 1 else 0
      ensures sent == old(sent) + if IsMessage(line) then [Sent(old(sessionId), Trim(line))] else []
    {
      var text := Trim(line);
      TrimIsTrimmed(line);
      TrimIsTrimmed(text);
      exit := false;
      if text != "" {
        var handled;
        handled, exit := HandleCommand(text, made);
        if !handled {
          sent := sent + [Sent(sessionId, text)];
        }
      }
    }

    /**
    runConverseInteractive on an input that ends by EOF or by a read failure: exactly the
    messages before the first exit command are sent, each under its session.
    */
    method RunInteractive(input: string, eof: bool, made: nat -> Option<Session>) returns (end: End)
      requires Valid() && sent == [] && news == 0
      modifies this
      ensures Valid()
      ensures var ls := Usable(input, eof);
              && sent == Messages(ls, FirstExit(ls), old(sess), made)
              && sess == SessionAt(ls, FirstExit(ls), old(sess), made)
              && (end == ReadError <==> !eof && FirstExit(ls) == |ls|)
    {
      var rest := input;
      ghost var ls := Usable(input, eof);
      ghost var k: nat := 0;
      while true
        invariant Valid() && k <= |ls| && ls[k..] == Usable(rest, eof)
        invariant Reached(ls, k, old(sess), made, sess, sent, news)
        decreases |rest|
      {
        var line := FirstLine(rest);
        var atEnd := !EndsLine(line);
        if atEnd && (!eof || line == "") {
          LastRead(rest, eof);
          FirstExitIs(ls, k);
          return if eof then Finished else ReadError;
        }
        NextLine(rest, eof);
        rest := rest[|line|..];
        assert ls[k] == line && ls[k + 1..] == ls[k..][1..];
        ghost var was, said, counted := sess, sent, news;
        var exit := Process(line, made);
        if exit {
          FirstExitIs(ls, k);
          return Finished;
        }
        ReachedNext(ls, k, old(sess), made, was, said, counted);
        k := k + 1;
        if atEnd {
          FirstExitIs(ls, k);
          return Finished;
        }
      }
    }
  }

  lemma LastRead(rest: string, eof: bool)
    requires !EndsLine(FirstLine(rest)) && (!eof || FirstLine(rest) == "")
    ensures Usable(rest, eof) == []
  {
    if rest != "" {
      var line := FirstLine(rest);
      assert rest[|line|..] == "";
      assert Lines(rest) == [line];
    }
  }

  /** A line that is processed is the next usable one; one without a line break is the last. */
  lemma NextLine(rest: string, eof: bool)
    requires FirstLine(rest) != "" && (EndsLine(FirstLine(rest)) || eof)
    ensures var line := FirstLine(rest);
            var more := rest[|line|..];
            && Usable(rest, eof) == [line] + Usable(more, eof)
            && (!EndsLine(line) ==> more == "")
  {
    var line := FirstLine(rest);
    var more := rest[|line|..];
    assert Lines(rest) == [line] + Lines(more);
    DropCutAfter(line, Lines(more), eof);
  }
}
