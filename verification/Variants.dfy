/** Paragraphs of a text: splitting at blank lines, and the section tags a paragraph can open or close. */
module Paragraphs {
  import opened Results

  const BREAK: string := ['\n', '\n']

  predicate BreakAt(text: string, i: int) {
    0 <= i && i + 1 < |text| && text[i] == '\n' && text[i + 1] == '\n'
  }

  predicate HasBreak(text: string) {
    exists i | 0 <= i < |text| :: BreakAt(text, i)
  }

  /** Where the first blank line begins, from `i` on; the text's length when there is none. */
  function FirstBreak(text: string, i: nat): (at: nat)
    requires i <= |text|
    ensures i <= at <= |text|
    ensures at < |text| ==> BreakAt(text, at)
    ensures forall k | i <= k < at :: !BreakAt(text, k)
    decreases |text| - i
  {
    if i == |text| || BreakAt(text, i) then i else FirstBreak(text, i + 1)
  }

  function Split(text: string): seq<string>
    decreases |text|
  {
    var at := FirstBreak(text, 0);
    if at == |text| then [text] else [text[..at]] + Split(text[at + 2..])
  }

  function Join(paragraphs: seq<string>): string {
    if paragraphs == [] then []
    else if |paragraphs| == 1 then paragraphs[0]
    else paragraphs[0] + (BREAK + Join(paragraphs[1..]))
  }

  lemma {:induction false} JoinOfSplit(text: string)
    ensures Split(text) != [] && Join(Split(text)) == text
    decreases |text|
  {
    var at := FirstBreak(text, 0);
    if at < |text| {
      var rest := text[at + 2..];
      JoinOfSplit(rest);
      assert Split(text)[1..] == Split(rest);
      assert text == text[..at] + (BREAK + rest);
    }
  }

  /** A paragraph the split finds again: no blank line in it, and no line end at its end. */
  predicate IsParagraph(p: string) {
    !HasBreak(p) && (p != [] ==> p[|p| - 1] != '\n')
  }

  lemma FirstBreakAfter(p: string, rest: string)
    requires IsParagraph(p)
    ensures FirstBreak(p + (BREAK + rest), 0) == |p|
  {
    var text := p + (BREAK + rest);
    assert BreakAt(text, |p|);
    forall k | 0 <= k < |p| ensures !BreakAt(text, k) {
      if k + 1 < |p| {
        assert BreakAt(text, k) <==> BreakAt(p, k);
      } else {
        assert text[k] == p[|p| - 1];
      }
    }
  }

  lemma SplitOfMore(paragraphs: seq<string>)
    requires |paragraphs| > 1 && (paragraphs[0] != [] ==> paragraphs[0][|paragraphs[0]| - 1] != '\n')
    ensures Split(Join(paragraphs)) == Split(paragraphs[0]) + Split(Join(paragraphs[1..]))
  {
    SplitConcat(paragraphs[0], Join(paragraphs[1..]));
  }

  lemma {:induction false} SplitOfJoin(paragraphs: seq<string>)
    requires paragraphs != [] && forall p | p in paragraphs :: IsParagraph(p)
    ensures Split(Join(paragraphs)) == paragraphs
    decreases |paragraphs|
  {
    var p := paragraphs[0];
    assert p in paragraphs;
    SplitOfParagraph(p);
    if |paragraphs| > 1 {
      SplitOfJoin(paragraphs[1..]);
      SplitOfMore(paragraphs);
      HeadAndTail(paragraphs);
    }
  }

  /** What a split yields: no paragraph holds a blank line, and none but the last ends in a line end. */
  lemma {:induction false} SplitParts(text: string, i: nat)
    requires i < |Split(text)|
    ensures var p := Split(text)[i]; !HasBreak(p) && (i + 1 < |Split(text)| && p != [] ==> p[|p| - 1] != '\n')
    decreases |text|
  {
    var at := FirstBreak(text, 0);
    if at < |text| && i > 0 {
      SplitParts(text[at + 2..], i - 1);
    } else {
      var p := text[..at];
      forall k | 0 <= k < |p| ensures !BreakAt(p, k) {
        assert !BreakAt(text, k);
      }
      if at < |text| && at > 0 {
        assert !BreakAt(text, at - 1);
      }
      assert at == |text| ==> p == text;
    }
  }

  /** A text is one paragraph, or its first paragraph, a blank line, and the rest. */
  lemma SplitFirst(text: string)
    ensures var at := FirstBreak(text, 0);
      && !HasBreak(text[..at])
      && (at == |text| ==> text[..at] == text && Split(text) == [text])
      && (at < |text| ==> Split(text) == [text[..at]] + Split(text[at + 2..]))
      && (0 < at < |text| ==> text[at - 1] != '\n')
  {
    var at := FirstBreak(text, 0);
    assert text[..|text|] == text;
    forall k | 0 <= k < at ensures !BreakAt(text[..at], k) {
      assert !BreakAt(text, k);
    }
    if 0 < at < |text| {
      assert !BreakAt(text, at - 1);
    }
  }

  lemma CutAtBreak(text: string, at: nat)
    requires BreakAt(text, at)
    ensures text == text[..at] + (BREAK + text[at + 2..])
  {
    assert text[at..at + 2] == BREAK;
    assert text == text[..at] + (text[at..at + 2] + text[at + 2..]);
  }

  lemma SameFirstBreak(p: string, rest: string)
    requires FirstBreak(p, 0) < |p|
    ensures var at := FirstBreak(p, 0);
      FirstBreak(p + rest, 0) == at && (p + rest)[..at] == p[..at] && (p + rest)[at + 2..] == p[at + 2..] + rest
  {
    var text, at := p + rest, FirstBreak(p, 0);
    assert BreakAt(text, at);
    forall k | 0 <= k < at ensures !BreakAt(text, k) {
      assert !BreakAt(p, k);
    }
  }

  /** A blank line after a text that does not end its last line splits there, whatever comes before and after. */
  lemma {:induction false} SplitConcat(p: string, rest: string)
    requires p != [] ==> p[|p| - 1] != '\n'
    ensures Split(p + (BREAK + rest)) == Split(p) + Split(rest)
    decreases |p|
  {
    var at := FirstBreak(p, 0);
    SplitFirst(p);
    if at == |p| {
      FirstBreakAfter(p, rest);
      AfterBreak(p, rest);
    } else {
      SameFirstBreak(p, BREAK + rest);
      SplitConcat(p[at + 2..], rest);
      Regroup([p[..at]], Split(p[at + 2..]), Split(rest));
    }
  }

  lemma AfterBreak(p: string, rest: string)
    ensures var text := p + (BREAK + rest); text[..|p|] == p && text[|p| + 2..] == rest
  {
  }

  lemma SplitOfParagraph(p: string)
    requires !HasBreak(p)
    ensures Split(p) == [p]
  {
    SplitFirst(p);
    assert !BreakAt(p, FirstBreak(p, 0));
  }

  // ---- plain facts about sequences ---------------------------------------------------------------------

  lemma ConcatTail<T>(a: seq<T>, b: seq<T>)
    requires a != []
    ensures (a + b)[0] == a[0] && (a + b)[1..] == a[1..] + b
  {
  }

  lemma HeadAndTail<T>(s: seq<T>)
    requires s != []
    ensures s == [s[0]] + s[1..]
  {
  }

  lemma SplitAround<T>(s: seq<T>, at: nat)
    requires at < |s|
    ensures s == s[..at] + [s[at]] + s[at + 1..]
  {
  }

  lemma Regroup<T>(a: seq<T>, b: seq<T>, c: seq<T>)
    ensures a + b + c == a + (b + c)
  {
  }

  lemma SkipEmpty<T>(a: seq<T>, b: seq<T>)
    ensures a + [] + b == a + b
  {
  }

  // ---- section tags --------------------------------------------------------------------------------------

  predicate IsNameCharacter(c: char) {
    'a' <= c <= 'z' || c == '_'
  }

  predicate IsName(name: string) {
    name != [] && forall i | 0 <= i < |name| :: IsNameCharacter(name[i])
  }

  function Open(name: string): string {
    ['<'] + name + ['>', '\n']
  }

  function Close(name: string): string {
    ['\n', '<', '/'] + name + ['>']
  }

  function NameLength(text: string, i: nat): (n: nat)
    requires i <= |text|
    ensures i + n <= |text|
    ensures forall k | i <= k < i + n :: IsNameCharacter(text[k])
    ensures i + n < |text| ==> !IsNameCharacter(text[i + n])
    decreases |text| - i
  {
    if i < |text| && IsNameCharacter(text[i]) then 1 + NameLength(text, i + 1) else 0
  }

  /** The section a paragraph opens: a tag on a line of its own at its start. */
  function OpenTag(p: string): Option<string> {
    if p == [] || p[0] != '<' then None
    else
      var n := NameLength(p, 1);
      if n > 0 && n + 2 < |p| && p[n + 1] == '>' && p[n + 2] == '\n' then Some(p[1..n + 1]) else None
  }

  function LastLine(p: string): (at: int)
    ensures -1 <= at < |p|
    ensures at >= 0 ==> p[at] == '\n'
    ensures forall k | at < k < |p| :: p[k] != '\n'
  {
    if p == [] then -1 else if p[|p| - 1] == '\n' then |p| - 1 else LastLine(p[..|p| - 1])
  }

  /** The section a paragraph closes: a closing tag on a line of its own at its end. */
  function CloseTag(p: string): Option<string> {
    var at := LastLine(p);
    if at < 0 || |p| - at < 5 || p[at + 1] != '<' || p[at + 2] != '/' || p[|p| - 1] != '>' || !IsName(p[at + 3..|p| - 1])
    then None
    else Some(p[at + 3..|p| - 1])
  }

  predicate EndsWith(p: string, suffix: string) {
    |suffix| <= |p| && p[|p| - |suffix|..] == suffix
  }

  lemma OpenTagIsPrefix(p: string, name: string)
    ensures OpenTag(p) == Some(name) <==> IsName(name) && Open(name) <= p
  {
    var open := Open(name);
    if OpenTag(p) == Some(name) {
      assert open == p[..|open|];
    }
    if IsName(name) && open <= p {
      assert p[0] == '<' && p[|name| + 1] == '>' && p[|name| + 2] == '\n';
      assert forall k | 1 <= k < |name| + 1 :: p[k] == name[k - 1];
      assert NameLength(p, 1) == |name|;
      assert p[1..|name| + 1] == name;
    }
  }

  lemma CloseTagIsSuffix(p: string, name: string)
    ensures CloseTag(p) == Some(name) <==> IsName(name) && EndsWith(p, Close(name))
  {
    if CloseTag(p) == Some(name) {
      FoundCloseTag(p, name);
    }
    if IsName(name) && EndsWith(p, Close(name)) {
      var front := p[..|p| - |Close(name)|];
      assert p == front + Close(name);
      CloseTagOfSuffix(front, name);
    }
  }

  lemma FoundCloseTag(p: string, name: string)
    requires CloseTag(p) == Some(name)
    ensures EndsWith(p, Close(name))
  {
    var at := LastLine(p);
    var name' := p[at + 3..|p| - 1];
    assert p[at..] == [p[at], p[at + 1], p[at + 2]] + name' + [p[|p| - 1]];
    assert |Close(name)| == |p| - at;
  }

  lemma CloseTagOfSuffix(front: string, name: string)
    requires IsName(name)
    ensures CloseTag(front + Close(name)) == Some(name)
  {
    var p, close := front + Close(name), Close(name);
    LastLineOfSuffix(front, close);
    var at := |front|;
    assert p[at + 1] == close[1] && p[at + 2] == close[2] && p[|p| - 1] == close[|close| - 1];
    assert p[at + 3..|p| - 1] == name;
  }

  lemma {:induction false} LastLineOfSuffix(front: string, line: string)
    requires line != [] && line[0] == '\n' && forall k | 0 < k < |line| :: line[k] != '\n'
    ensures LastLine(front + line) == |front|
    decreases |line|
  {
    var p := front + line;
    if |line| > 1 {
      LastLineOfSuffix(front, line[..|line| - 1]);
      assert p[..|p| - 1] == front + line[..|line| - 1];
    }
  }
}

/** Block A as flat tagged sections, paragraph by paragraph. */
module Sections {
  import opened Results
  import opened Paragraphs

  /** One paragraph: the section it opens, its text, the section it closes. */
  datatype Piece = Piece(open: Option<string>, body: string, close: Option<string>)

  function Head(open: Option<string>): string {
    if open.None? then [] else Open(open.value)
  }

  function Tail(close: Option<string>): string {
    if close.None? then [] else Close(close.value)
  }

  function Render(p: Piece): string {
    Head(p.open) + p.body + Tail(p.close)
  }

  /** A line of text never to be taken for a tag, whatever lines it comes between. */
  predicate Safe(text: string) {
    OpenTag(text + ['\n']).None? && CloseTag(['\n'] + text).None?
  }

  /** A body: perhaps nothing, perhaps several paragraphs, none of them to be taken for a tag. */
  predicate IsBody(body: string) {
    && (body != [] ==> body[0] != '\n' && body[|body| - 1] != '\n')
    && forall q | q in Split(body) :: Safe(q)
  }

  lemma BodyIsSafe(body: string)
    requires IsBody(body)
    ensures Safe(body)
  {
    if OpenTag(body + ['\n']).Some? {
      NoOpenAtStart(body, OpenTag(body + ['\n']).value);
    }
    if CloseTag(['\n'] + body).Some? {
      NoCloseAtEnd(body, CloseTag(['\n'] + body).value);
    }
  }

  lemma NoOpenAtStart(body: string, name: string)
    requires forall q | q in Split(body) :: Safe(q)
    ensures OpenTag(body + ['\n']) != Some(name)
  {
    OpenTagIsPrefix(body + ['\n'], name);
    if OpenTag(body + ['\n']) == Some(name) {
      var at := FirstBreak(body, 0);
      SplitFirst(body);
      assert body[..at] in Split(body);
      if at < |body| {
        FirstLineEnds(body, at);
        OpenWithinFirstLine(name, body[..at], body[at + 1..] + ['\n']);
      }
      OpenTagIsPrefix(body[..at] + ['\n'], name);
    }
  }

  lemma FirstLineEnds(body: string, at: nat)
    requires BreakAt(body, at)
    ensures body + ['\n'] == body[..at] + ['\n'] + (body[at + 1..] + ['\n'])
    ensures ['\n'] + body == (['\n'] + body[..at + 1]) + ['\n'] + body[at + 2..]
  {
  }

  lemma {:induction false} NoCloseAtEnd(body: string, name: string)
    requires forall q | q in Split(body) :: Safe(q)
    ensures CloseTag(['\n'] + body) != Some(name)
    decreases |body|
  {
    var at := FirstBreak(body, 0);
    SplitFirst(body);
    if at == |body| {
      assert body in Split(body);
    } else {
      var rest := body[at + 2..];
      NoCloseAtEnd(rest, name);
      if CloseTag(['\n'] + body) == Some(name) {
        CloseTagIsSuffix(['\n'] + body, name);
        FirstLineEnds(body, at);
        CloseWithinLastLine(name, ['\n'] + body[..at + 1], rest);
        CloseTagIsSuffix(['\n'] + rest, name);
      }
    }
  }

  predicate ValidPiece(p: Piece) {
    && (p.open.Some? ==> IsName(p.open.value)) && (p.close.Some? ==> IsName(p.close.value))
    && IsBody(p.body)
  }

  /** An opening tag reaches no further than the first line's end. */
  lemma OpenWithinFirstLine(name: string, line: string, rest: string)
    requires IsName(name) && Open(name) <= line + ['\n'] + rest
    ensures Open(name) <= line + ['\n']
  {
    var open, whole, first := Open(name), line + ['\n'] + rest, line + ['\n'];
    assert |line| < |open| - 1 ==> open[|line|] == whole[|line|];
    assert forall k | 0 <= k < |open| - 1 :: open[k] != '\n';
    assert whole[|line|] == '\n';
    assert forall k | 0 <= k < |open| :: open[k] == whole[k] == first[k];
  }

  /** A closing tag reaches no further back than the last line's start. */
  lemma CloseWithinLastLine(name: string, rest: string, line: string)
    requires IsName(name) && EndsWith(rest + ['\n'] + line, Close(name))
    ensures EndsWith(['\n'] + line, Close(name))
  {
    var close, whole := Close(name), rest + ['\n'] + line;
    var front := whole[..|whole| - |close|];
    assert front + close == whole;
    assert forall k | 0 < k < |close| :: close[k] != '\n';
    CloseAfterLastLine(front, close, rest, line);
    DropFirst(rest, ['\n'], line);
    DropWithin(front, close, |rest|);
    EndsWithSuffix(front[|rest|..], close);
  }

  lemma DropFirst<T>(a: seq<T>, b: seq<T>, c: seq<T>)
    ensures (a + b + c)[|a|..] == b + c
  {
  }

  lemma DropWithin<T>(a: seq<T>, b: seq<T>, n: nat)
    requires n <= |a|
    ensures (a + b)[n..] == a[n..] + b
  {
  }

  lemma EndsWithSuffix(front: string, suffix: string)
    ensures EndsWith(front + suffix, suffix)
  {
  }

  lemma CloseAfterLastLine(front: string, close: string, rest: string, line: string)
    requires front + close == rest + ['\n'] + line
    requires forall k | 0 < k < |close| :: close[k] != '\n'
    ensures |rest| <= |front|
  {
    var whole := front + close;
    assert whole[|rest|] == '\n';
    assert |front| <= |rest| ==> whole[|rest|] == close[|rest| - |front|];
  }

  lemma NoStrayOpen(p: Piece, name: string)
    requires ValidPiece(p) && p.open.None? && IsName(name)
    ensures !(Open(name) <= Render(p))
  {
    var line := p.body + ['\n'];
    BodyIsSafe(p.body);
    if Open(name) <= Render(p) {
      if p.close.Some? {
        assert Render(p) == p.body + ['\n'] + Close(p.close.value)[1..];
        OpenWithinFirstLine(name, p.body, Close(p.close.value)[1..]);
      } else {
        assert Render(p) <= line;
      }
      OpenTagIsPrefix(line, name);
    }
  }

  lemma NoStrayClose(p: Piece, name: string)
    requires ValidPiece(p) && p.close.None? && IsName(name)
    ensures !EndsWith(Render(p), Close(name))
  {
    var line := ['\n'] + p.body;
    BodyIsSafe(p.body);
    if EndsWith(Render(p), Close(name)) {
      if p.open.Some? {
        OpenEndsItsLine(p);
        CloseWithinLastLine(name, ['<'] + p.open.value + ['>'], p.body);
      } else {
        assert Render(p) == p.body;
        LongerEndsWith(['\n'], p.body, Close(name));
      }
      CloseTagIsSuffix(line, name);
    }
  }

  lemma OpenEndsItsLine(p: Piece)
    requires p.open.Some? && p.close.None?
    ensures Render(p) == ['<'] + p.open.value + ['>'] + ['\n'] + p.body
  {
    assert Open(p.open.value) == ['<'] + p.open.value + ['>'] + ['\n'];
  }

  lemma LongerEndsWith(front: string, p: string, suffix: string)
    requires EndsWith(p, suffix)
    ensures EndsWith(front + p, suffix)
  {
  }

  lemma RenderHasTags(p: Piece)
    requires ValidPiece(p)
    ensures OpenTag(Render(p)) == p.open && CloseTag(Render(p)) == p.close
  {
    var r := Render(p);
    if p.open.Some? {
      assert Open(p.open.value) <= r;
      OpenTagIsPrefix(r, p.open.value);
    } else if OpenTag(r).Some? {
      OpenTagIsPrefix(r, OpenTag(r).value);
      NoStrayOpen(p, OpenTag(r).value);
    }
    if p.close.Some? {
      assert r[|r| - |Tail(p.close)|..] == Close(p.close.value);
      CloseTagIsSuffix(r, p.close.value);
    } else if CloseTag(r).Some? {
      CloseTagIsSuffix(r, CloseTag(r).value);
      NoStrayClose(p, CloseTag(r).value);
    }
  }

  lemma NoBreakConcat(a: string, b: string)
    requires !HasBreak(a) && !HasBreak(b)
    requires a != [] && b != [] ==> a[|a| - 1] != '\n' || b[0] != '\n'
    ensures !HasBreak(a + b)
  {
    forall i | 0 <= i < |a + b| ensures !BreakAt(a + b, i) {
      if i + 1 < |a| {
        assert BreakAt(a + b, i) <==> BreakAt(a, i);
      } else if i >= |a| {
        assert BreakAt(a + b, i) <==> BreakAt(b, i - |a|);
      }
    }
  }

  lemma TagsHaveNoBreak(name: string)
    requires IsName(name)
    ensures !HasBreak(Open(name)) && !HasBreak(Close(name))
  {
    assert forall k | 0 <= k < |name| + 2 :: Open(name)[k] != '\n';
    assert forall k | 0 < k < |name| + 4 :: Close(name)[k] != '\n';
  }

  /** A rendered paragraph without a blank line in its text has none, unless an opening tag is all there is before the end. */
  lemma RenderHasNoBreak(p: Piece)
    requires (p.open.Some? ==> IsName(p.open.value)) && (p.close.Some? ==> IsName(p.close.value))
    requires !HasBreak(p.body) && (p.body != [] ==> p.body[|p.body| - 1] != '\n')
    requires p.open.Some? ==> p.body != [] && p.body[0] != '\n'
    ensures !HasBreak(Render(p))
  {
    if p.open.Some? {
      TagsHaveNoBreak(p.open.value);
    }
    if p.close.Some? {
      TagsHaveNoBreak(p.close.value);
    }
    var front := Head(p.open) + p.body;
    NoBreakConcat(Head(p.open), p.body);
    assert front != [] ==> front[|front| - 1] == p.body[|p.body| - 1];
    NoBreakConcat(front, Tail(p.close));
  }

  // ---- sections, flat and balanced ---------------------------------------------------------------------

  datatype Mode = Outside | Inside(name: string) | Broken

  function Step(mode: Mode, p: Piece): Mode {
    match mode
    case Outside =>
      if p.open.None? then Broken
      else if p.close.None? then Inside(p.open.value)
      else if p.close == p.open then Outside
      else Broken
    case Inside(name) =>
      if p.open.Some? then Broken
      else if p.close.None? then mode
      else if p.close.value == name then Outside
      else Broken
    case Broken => Broken
  }

  function Run(mode: Mode, pieces: seq<Piece>): Mode
    decreases |pieces|
  {
    if pieces == [] then mode else Run(Step(mode, pieces[0]), pieces[1..])
  }

  /** Sections one after the other, each opened and closed by its own name, none inside another. */
  predicate Flat(pieces: seq<Piece>) {
    Run(Outside, pieces) == Outside
  }

  /** The sections' names in order. */
  function Names(pieces: seq<Piece>): seq<string>
    decreases |pieces|
  {
    if pieces == [] then []
    else (if pieces[0].open.Some? then [pieces[0].open.value] else []) + Names(pieces[1..])
  }

  function Bodies(pieces: seq<Piece>): (bodies: seq<string>)
    ensures |bodies| == |pieces| && forall i | 0 <= i < |pieces| :: bodies[i] == pieces[i].body
  {
    seq(|pieces|, i requires 0 <= i < |pieces| => pieces[i].body)
  }

  lemma {:induction false} RunConcat(mode: Mode, a: seq<Piece>, b: seq<Piece>)
    ensures Run(mode, a + b) == Run(Run(mode, a), b)
    decreases |a|
  {
    if a == [] {
      assert a + b == b;
    } else {
      RunConcat(Step(mode, a[0]), a[1..], b);
      ConcatTail(a, b);
    }
  }

  lemma {:induction false} NamesConcat(a: seq<Piece>, b: seq<Piece>)
    ensures Names(a + b) == Names(a) + Names(b)
    decreases |a|
  {
    if a == [] {
      assert a + b == b;
    } else {
      NamesConcat(a[1..], b);
      ConcatTail(a, b);
    }
  }

  lemma {:induction false} BrokenStaysBroken(pieces: seq<Piece>)
    ensures Run(Broken, pieces) == Broken
    decreases |pieces|
  {
    if pieces != [] {
      BrokenStaysBroken(pieces[1..]);
    }
  }

  /** Where a stretch of paragraphs takes every mode to the same place, it can stand for another. */
  lemma RewriteInPlace(front: seq<Piece>, was: seq<Piece>, other: seq<Piece>, back: seq<Piece>)
    requires Flat(front + was + back)
    requires Run(Run(Outside, front), was) == Run(Run(Outside, front), other)
    ensures Flat(front + other + back)
  {
    RunConcat(Outside, front + was, back);
    RunConcat(Outside, front, was);
    RunConcat(Outside, front + other, back);
    RunConcat(Outside, front, other);
  }

  lemma NamesInPlace(front: seq<Piece>, middle: seq<Piece>, back: seq<Piece>)
    ensures Names(front + middle + back) == Names(front) + Names(middle) + Names(back)
  {
    NamesConcat(front + middle, back);
    NamesConcat(front, middle);
  }

  // ---- the three edits on pieces ---------------------------------------------------------------------

  function Replaced(pieces: seq<Piece>, at: nat, body: string): seq<Piece>
    requires at < |pieces|
  {
    pieces[..at] + [pieces[at].(body := body)] + pieces[at + 1..]
  }

  /** The new paragraph takes over the closing tag. */
  function Added(pieces: seq<Piece>, at: nat, body: string): seq<Piece>
    requires at < |pieces|
  {
    pieces[..at] + [pieces[at].(close := None), Piece(None, body, pieces[at].close)] + pieces[at + 1..]
  }

  /** A lone opening tag moves to the next paragraph, a lone closing tag to the one before. */
  function Reattached(rest: seq<Piece>, at: nat, open: Option<string>, close: Option<string>): seq<Piece>
    requires at <= |rest|
  {
    if open.Some? && close.None? && at < |rest| then rest[at := rest[at].(open := open)]
    else if close.Some? && open.None? && at > 0 then rest[at - 1 := rest[at - 1].(close := close)]
    else rest
  }

  function Removed(pieces: seq<Piece>, at: nat): seq<Piece>
    requires at < |pieces|
  {
    Reattached(pieces[..at] + pieces[at + 1..], at, pieces[at].open, pieces[at].close)
  }

  lemma RunOne(mode: Mode, p: Piece)
    ensures Run(mode, [p]) == Step(mode, p)
    ensures Names([p]) == if p.open.Some? then [p.open.value] else []
  {
    assert [p][1..] == [];
  }

  lemma RunTwo(mode: Mode, p: Piece, q: Piece)
    ensures Run(mode, [p, q]) == Step(Step(mode, p), q)
    ensures Names([p, q]) == (if p.open.Some? then [p.open.value] else []) + (if q.open.Some? then [q.open.value] else [])
  {
    assert [p, q][1..] == [q];
    RunOne(Step(mode, p), q);
  }

  /** Swapping one stretch for another with the same names and the same way through. */
  lemma SwapKeepsSections(front: seq<Piece>, was: seq<Piece>, other: seq<Piece>, back: seq<Piece>)
    requires Flat(front + was + back) && Names(was) == Names(other)
    requires Run(Run(Outside, front), was) == Run(Run(Outside, front), other)
    ensures Flat(front + other + back) && Names(front + other + back) == Names(front + was + back)
  {
    RewriteInPlace(front, was, other, back);
    NamesInPlace(front, was, back);
    NamesInPlace(front, other, back);
  }

  lemma RetextedRuns(mode: Mode, p: Piece, body: string)
    ensures Run(mode, [p]) == Run(mode, [p.(body := body)]) && Names([p]) == Names([p.(body := body)])
  {
    RunOne(mode, p);
    RunOne(mode, p.(body := body));
  }

  lemma SplitOffRuns(mode: Mode, p: Piece, body: string)
    ensures var split := [p.(close := None), Piece(None, body, p.close)];
      Run(mode, [p]) == Run(mode, split) && Names([p]) == Names(split)
  {
    RunOne(mode, p);
    RunTwo(mode, p.(close := None), Piece(None, body, p.close));
  }

  lemma ReplaceKeepsSections(pieces: seq<Piece>, at: nat, body: string)
    requires Flat(pieces) && at < |pieces|
    ensures Flat(Replaced(pieces, at, body)) && Names(Replaced(pieces, at, body)) == Names(pieces)
  {
    var p := pieces[at];
    SplitAround(pieces, at);
    RetextedRuns(Run(Outside, pieces[..at]), p, body);
    SwapKeepsSections(pieces[..at], [p], [p.(body := body)], pieces[at + 1..]);
  }

  lemma AddKeepsSections(pieces: seq<Piece>, at: nat, body: string)
    requires Flat(pieces) && at < |pieces|
    ensures Flat(Added(pieces, at, body)) && Names(Added(pieces, at, body)) == Names(pieces)
  {
    var p := pieces[at];
    SplitAround(pieces, at);
    SplitOffRuns(Run(Outside, pieces[..at]), p, body);
    SwapKeepsSections(pieces[..at], [p], [p.(close := None), Piece(None, body, p.close)], pieces[at + 1..]);
  }

  /** Every other paragraph keeps its text. */
  lemma EditedBodies(pieces: seq<Piece>, at: nat, body: string)
    requires at < |pieces|
    ensures Bodies(Replaced(pieces, at, body)) == Bodies(pieces)[at := body]
    ensures Bodies(Added(pieces, at, body)) == Bodies(pieces)[..at + 1] + [body] + Bodies(pieces)[at + 1..]
    ensures Bodies(Removed(pieces, at)) == Bodies(pieces)[..at] + Bodies(pieces)[at + 1..]
  {
    var p, bodies, rest := pieces[at], Bodies(pieces), pieces[..at] + pieces[at + 1..];
    BodiesSplice(pieces, at, [p.(body := body)]);
    assert bodies[at := body] == bodies[..at] + [body] + bodies[at + 1..];
    BodiesSplice(pieces, at, [p.(close := None), Piece(None, body, p.close)]);
    assert bodies[..at] + [p.body, body] == bodies[..at + 1] + [body];
    BodiesSplice(pieces, at, []);
    assert pieces[..at] + [] + pieces[at + 1..] == rest;
    ReattachedBodies(rest, at, p.open, p.close);
  }

  lemma BodiesSplice(pieces: seq<Piece>, at: nat, middle: seq<Piece>)
    requires at < |pieces|
    ensures Bodies(pieces[..at] + middle + pieces[at + 1..]) == Bodies(pieces)[..at] + Bodies(middle) + Bodies(pieces)[at + 1..]
    ensures |middle| == 1 ==> Bodies(middle) == [middle[0].body]
    ensures |middle| == 2 ==> Bodies(middle) == [middle[0].body, middle[1].body]
  {
  }

  lemma ReattachedBodies(rest: seq<Piece>, at: nat, open: Option<string>, close: Option<string>)
    requires at <= |rest|
    ensures Bodies(Reattached(rest, at, open, close)) == Bodies(rest)
  {
  }

  lemma NotBroken(front: seq<Piece>, back: seq<Piece>)
    requires Flat(front + back)
    ensures Run(Outside, front) != Broken
  {
    RunConcat(Outside, front, back);
    BrokenStaysBroken(back);
  }

  lemma AfterPiece(front: seq<Piece>, p: Piece, back: seq<Piece>)
    requires Flat(front + [p] + back)
    ensures Step(Run(Outside, front), p) != Broken
  {
    NotBroken(front + [p], back);
    RunConcat(Outside, front, [p]);
    RunOne(Run(Outside, front), p);
  }

  /** A paragraph that is a whole section goes with its name; any other goes alone. */
  lemma RemoveKeepsSections(pieces: seq<Piece>, at: nat)
    requires Flat(pieces) && at < |pieces|
    ensures Flat(Removed(pieces, at))
    ensures Names(Removed(pieces, at)) ==
      if pieces[at].open.Some? && pieces[at].close.Some? then Names(pieces[..at]) + Names(pieces[at + 1..]) else Names(pieces)
  {
    var front, p, back := pieces[..at], pieces[at], pieces[at + 1..];
    SplitAround(pieces, at);
    if p.open.Some? && p.close.None? {
      RemoveOpener(front, p, back);
    } else if p.open.None? && p.close.Some? {
      RemoveCloser(front, p, back);
    } else {
      RemoveWhole(front, p, back);
    }
  }

  lemma RemoveWhole(front: seq<Piece>, p: Piece, back: seq<Piece>)
    requires Flat(front + [p] + back) && p.open.Some? == p.close.Some?
    ensures Flat(front + back) && Names(front + back) == Names(front) + Names(back)
    ensures p.open.None? ==> Names(front + back) == Names(front + [p] + back)
  {
    RemoveWholeStaysFlat(front, p, back);
    NamesInPlace(front, [p], back);
    NamesConcat(front, back);
    RunOne(Outside, p);
  }

  lemma RemoveWholeStaysFlat(front: seq<Piece>, p: Piece, back: seq<Piece>)
    requires Flat(front + [p] + back) && p.open.Some? == p.close.Some?
    ensures Flat(front + back)
  {
    AfterPiece(front, p, back);
    RunOne(Run(Outside, front), p);
    RewriteInPlace(front, [p], [], back);
    SkipEmpty(front, back);
  }

  /** A paragraph that only opens its section is followed by one that does not open any. */
  lemma OpenerHasNext(front: seq<Piece>, p: Piece, back: seq<Piece>)
    requires Flat(front + [p] + back) && p.open.Some? && p.close.None?
    ensures Run(Outside, front) == Outside && back != [] && back[0].open.None?
  {
    AfterPiece(front, p, back);
    RunOne(Run(Outside, front), p);
    RunConcat(Outside, front + [p], back);
    RunConcat(Outside, front, [p]);
    assert back != [];
    assert front + [p] + back == front + [p] + [back[0]] + back[1..];
    AfterPiece(front + [p], back[0], back[1..]);
  }

  lemma RemoveOpener(front: seq<Piece>, p: Piece, back: seq<Piece>)
    requires Flat(front + [p] + back) && p.open.Some? && p.close.None?
    ensures var pieces := front + [p] + back;
      Flat(Removed(pieces, |front|)) && Names(Removed(pieces, |front|)) == Names(pieces)
  {
    OpenerHasNext(front, p, back);
    var q, rest := back[0], back[1..];
    var r := q.(open := p.open);
    assert front + [p] + back == front + [p, q] + rest;
    RunTwo(Outside, p, q);
    RunOne(Outside, r);
    SwapKeepsSections(front, [p, q], [r], rest);
    assert Removed(front + [p] + back, |front|) == front + [r] + rest;
  }

  /** A paragraph that only closes its section follows one that does not close any. */
  lemma CloserHasPrevious(front: seq<Piece>, p: Piece, back: seq<Piece>)
    requires Flat(front + [p] + back) && p.open.None? && p.close.Some?
    ensures front != [] && front[|front| - 1].close.None?
    ensures Run(Outside, front) == Inside(p.close.value)
  {
    AfterPiece(front, p, back);
    assert front != [];
    LastOf(front);
    LastInsideClosesNothing(front[..|front| - 1], front[|front| - 1]);
  }

  lemma LastInsideClosesNothing(early: seq<Piece>, q: Piece)
    requires Run(Outside, early + [q]).Inside?
    ensures q.close.None?
  {
    RunConcat(Outside, early, [q]);
    RunOne(Run(Outside, early), q);
  }

  lemma LastOf<T>(s: seq<T>)
    requires s != []
    ensures s == s[..|s| - 1] + [s[|s| - 1]]
  {
  }

  lemma RemoveCloser(front: seq<Piece>, p: Piece, back: seq<Piece>)
    requires Flat(front + [p] + back) && p.open.None? && p.close.Some?
    ensures var pieces := front + [p] + back;
      Flat(Removed(pieces, |front|)) && Names(Removed(pieces, |front|)) == Names(pieces)
  {
    CloserHasPrevious(front, p, back);
    var early, q := front[..|front| - 1], front[|front| - 1];
    var r := q.(close := p.close);
    LastOf(front);
    CloserMoves(front, p, back);
    RunConcat(Outside, early, [q]);
    RunOne(Run(Outside, early), q);
    RunTwo(Run(Outside, early), q, p);
    RunOne(Run(Outside, early), r);
    SwapKeepsSections(early, [q, p], [r], back);
  }

  lemma CloserMoves(front: seq<Piece>, p: Piece, back: seq<Piece>)
    requires front != [] && p.open.None? && p.close.Some?
    ensures var early, q := front[..|front| - 1], front[|front| - 1];
      && front + [p] + back == early + [q, p] + back
      && Removed(front + [p] + back, |front|) == early + [q.(close := p.close)] + back
  {
  }

  // ---- paragraphs of paragraphs --------------------------------------------------------------------------

  /** The paragraphs of one stretch of text, the first with the opening tag and the last with the closing one. */
  function Spread(open: Option<string>, bodies: seq<string>, close: Option<string>): (pieces: seq<Piece>)
    requires bodies != []
    ensures pieces != []
    decreases |bodies|
  {
    if |bodies| == 1 then [Piece(open, bodies[0], close)]
    else [Piece(open, bodies[0], None)] + Spread(None, bodies[1..], close)
  }

  /** Every piece as the paragraphs its body splits into. */
  function Expanded(pieces: seq<Piece>): seq<Piece>
    decreases |pieces|
  {
    if pieces == [] then []
    else
      JoinOfSplit(pieces[0].body);
      Spread(pieces[0].open, Split(pieces[0].body), pieces[0].close) + Expanded(pieces[1..])
  }

  lemma {:induction false} SpreadIsOnePiece(mode: Mode, open: Option<string>, bodies: seq<string>, close: Option<string>)
    requires bodies != []
    ensures Run(mode, Spread(open, bodies, close)) == Step(mode, Piece(open, [], close))
    ensures Names(Spread(open, bodies, close)) == if open.Some? then [open.value] else []
    decreases |bodies|
  {
    var p := Piece(open, bodies[0], None);
    if |bodies| == 1 {
      RunOne(mode, Piece(open, bodies[0], close));
    } else {
      var rest := Spread(None, bodies[1..], close);
      SpreadIsOnePiece(Step(mode, p), None, bodies[1..], close);
      RunConcat(mode, [p], rest);
      RunOne(mode, p);
      NamesConcat([p], rest);
    }
  }

  lemma StepIgnoresBody(mode: Mode, p: Piece)
    ensures Step(mode, p) == Step(mode, Piece(p.open, [], p.close))
  {
  }

  /** Taking paragraphs apart keeps the sections. */
  lemma {:induction false} ExpandedRuns(mode: Mode, pieces: seq<Piece>)
    ensures Run(mode, Expanded(pieces)) == Run(mode, pieces)
    decreases |pieces|
  {
    if pieces != [] {
      var p, rest := pieces[0], pieces[1..];
      JoinOfSplit(p.body);
      SpreadIsOnePiece(mode, p.open, Split(p.body), p.close);
      StepIgnoresBody(mode, p);
      ExpandedRuns(Step(mode, p), rest);
      RunConcat(mode, Spread(p.open, Split(p.body), p.close), Expanded(rest));
    }
  }

  lemma {:induction false} ExpandedNames(pieces: seq<Piece>)
    ensures Names(Expanded(pieces)) == Names(pieces)
    decreases |pieces|
  {
    if pieces != [] {
      var p, rest := pieces[0], pieces[1..];
      JoinOfSplit(p.body);
      SpreadIsOnePiece(Outside, p.open, Split(p.body), p.close);
      ExpandedNames(rest);
      NamesConcat(Spread(p.open, Split(p.body), p.close), Expanded(rest));
    }
  }

  /** A piece of one paragraph is taken over as it is. */
  lemma {:induction false} ExpandedHolds(pieces: seq<Piece>, p: Piece)
    requires p in pieces && !HasBreak(p.body)
    ensures p in Expanded(pieces)
    decreases |pieces|
  {
    if pieces[0] == p {
      SplitOfParagraph(p.body);
      assert Spread(p.open, [p.body], p.close) == [p];
    } else {
      assert pieces == [pieces[0]] + pieces[1..];
      ExpandedHolds(pieces[1..], p);
    }
  }

  function Rendered(pieces: seq<Piece>): (paragraphs: seq<string>)
    ensures |paragraphs| == |pieces| && forall i | 0 <= i < |pieces| :: paragraphs[i] == Render(pieces[i])
  {
    seq(|pieces|, i requires 0 <= i < |pieces| => Render(pieces[i]))
  }

  lemma RenderedConcat(a: seq<Piece>, b: seq<Piece>)
    ensures Rendered(a + b) == Rendered(a) + Rendered(b)
  {
  }

  lemma RenderedOne(p: Piece)
    ensures Rendered([p]) == [Render(p)]
  {
  }

  /** The paragraphs of a rendered piece are its spread ones. */
  lemma {:induction false} SplitOfPiece(open: Option<string>, body: string, close: Option<string>)
    requires (open.Some? ==> IsName(open.value)) && (close.Some? ==> IsName(close.value))
    requires body != [] ==> body[|body| - 1] != '\n'
    requires open.Some? ==> body != [] && body[0] != '\n'
    ensures Split(body) != []
    ensures Split(Render(Piece(open, body, close))) == Rendered(Spread(open, Split(body), close))
    decreases |body|
  {
    var at := FirstBreak(body, 0);
    SplitFirst(body);
    if at == |body| {
      OneParagraphPiece(Piece(open, body, close));
    } else {
      SplitOfPiece(None, body[at + 2..], close);
      FirstOfPiece(open, body, close, at);
      SpreadMore(open, body[..at], Split(body[at + 2..]), close);
    }
  }

  lemma OneParagraphPiece(p: Piece)
    requires (p.open.Some? ==> IsName(p.open.value)) && (p.close.Some? ==> IsName(p.close.value))
    requires p.open.Some? ==> p.body != [] && p.body[0] != '\n'
    requires !HasBreak(p.body) && (p.body != [] ==> p.body[|p.body| - 1] != '\n')
    ensures Split(Render(p)) == Rendered(Spread(p.open, [p.body], p.close))
  {
    RenderHasNoBreak(p);
    SplitOfParagraph(Render(p));
    RenderedOne(p);
  }

  /** The first paragraph of a piece splits off. */
  lemma FirstOfPiece(open: Option<string>, body: string, close: Option<string>, at: nat)
    requires (open.Some? ==> IsName(open.value)) && BreakAt(body, at) && !HasBreak(body[..at])
    requires at > 0 ==> body[at - 1] != '\n'
    requires open.Some? ==> body[0] != '\n'
    ensures Split(Render(Piece(open, body, close)))
      == [Render(Piece(open, body[..at], None))] + Split(Render(Piece(None, body[at + 2..], close)))
  {
    var first := Piece(open, body[..at], None);
    RenderHasNoBreak(first);
    RenderedCut(open, body, close, at);
    EndsNoLine(first);
    SplitConcat(Render(first), Render(Piece(None, body[at + 2..], close)));
    SplitOfParagraph(Render(first));
  }

  lemma SpreadMore(open: Option<string>, body: string, more: seq<string>, close: Option<string>)
    requires more != []
    ensures Rendered(Spread(open, [body] + more, close)) == [Render(Piece(open, body, None))] + Rendered(Spread(None, more, close))
  {
    assert ([body] + more)[1..] == more;
    RenderedConcat([Piece(open, body, None)], Spread(None, more, close));
    RenderedOne(Piece(open, body, None));
  }

  lemma EndsNoLine(p: Piece)
    requires p.body != [] ==> p.body[|p.body| - 1] != '\n'
    requires p.open.Some? && p.close.None? ==> p.body != []
    ensures Render(p) != [] ==> Render(p)[|Render(p)| - 1] != '\n'
  {
  }

  lemma RenderedCut(open: Option<string>, body: string, close: Option<string>, at: nat)
    requires BreakAt(body, at)
    ensures Render(Piece(open, body, close))
      == Render(Piece(open, body[..at], None)) + (BREAK + Render(Piece(None, body[at + 2..], close)))
  {
    CutAtBreak(body, at);
    var rest := body[at + 2..];
    Regroup4(Head(open), body[..at], BREAK + rest, Tail(close));
    Regroup(BREAK, rest, Tail(close));
    assert Render(Piece(None, rest, close)) == rest + Tail(close);
    assert Render(Piece(open, body[..at], None)) == Head(open) + body[..at];
  }

  lemma Regroup4<T>(a: seq<T>, b: seq<T>, c: seq<T>, d: seq<T>)
    ensures a + (b + c) + d == a + b + (c + d)
  {
  }

  predicate AllValid(pieces: seq<Piece>) {
    forall i | 0 <= i < |pieces| :: ValidPiece(pieces[i])
  }

  /** No paragraph opens a section and has no text. */
  predicate OpenersHaveText(pieces: seq<Piece>) {
    forall i | 0 <= i < |pieces| :: pieces[i].open.Some? ==> pieces[i].body != []
  }

  lemma {:induction false} SplitOfPieces(pieces: seq<Piece>)
    requires pieces != [] && AllValid(pieces) && OpenersHaveText(pieces)
    ensures Split(Join(Rendered(pieces))) == Rendered(Expanded(pieces))
    decreases |pieces|
  {
    TailHasText(pieces);
    FirstPieceSplitsOff(pieces);
    ExpandedMore(pieces);
    if pieces[1..] != [] {
      SplitOfPieces(pieces[1..]);
    }
  }

  lemma TailHasText(pieces: seq<Piece>)
    requires pieces != [] && AllValid(pieces) && OpenersHaveText(pieces)
    ensures AllValid(pieces[1..]) && OpenersHaveText(pieces[1..])
    ensures ValidPiece(pieces[0]) && (pieces[0].open.Some? ==> pieces[0].body != [])
  {
  }

  lemma FirstPieceSplitsOff(pieces: seq<Piece>)
    requires pieces != [] && ValidPiece(pieces[0]) && (pieces[0].open.Some? ==> pieces[0].body != [])
    ensures Split(pieces[0].body) != []
    ensures var p, rest := pieces[0], pieces[1..];
      Split(Join(Rendered(pieces)))
        == Rendered(Spread(p.open, Split(p.body), p.close)) + (if rest == [] then [] else Split(Join(Rendered(rest))))
  {
    var p := pieces[0];
    SplitOfPiece(p.open, p.body, p.close);
    EndsNoLine(p);
    if |pieces| > 1 {
      RenderedTail(pieces);
      SplitOfMore(Rendered(pieces));
    }
  }

  lemma RenderedTail(pieces: seq<Piece>)
    requires pieces != []
    ensures Rendered(pieces)[0] == Render(pieces[0]) && Rendered(pieces)[1..] == Rendered(pieces[1..])
  {
  }

  lemma ExpandedMore(pieces: seq<Piece>)
    requires pieces != []
    ensures Split(pieces[0].body) != []
    ensures var p, rest := pieces[0], pieces[1..];
      && Rendered(Expanded(pieces)) == Rendered(Spread(p.open, Split(p.body), p.close)) + Rendered(Expanded(rest))
      && (rest == [] ==> Rendered(Expanded(rest)) == [])
  {
    var p := pieces[0];
    JoinOfSplit(p.body);
    RenderedConcat(Spread(p.open, Split(p.body), p.close), Expanded(pieces[1..]));
  }

  /** An opening tag with no text before what comes next: its line end runs into a blank line. */
  lemma BareOpenerIsNoParagraph(p: Piece)
    requires p.open.Some? && p.body == []
    ensures p.close.Some? ==> HasBreak(Render(p))
    ensures p.close.None? ==> Render(p) != [] && Render(p)[|Render(p)| - 1] == '\n'
  {
    var open := Open(p.open.value);
    assert Render(p) == open + Tail(p.close);
    if p.close.Some? {
      assert BreakAt(Render(p), |open| - 1);
    }
  }

  lemma BareOpenerSplitsOtherwise(pieces: seq<Piece>, text: string, at: nat)
    requires Flat(pieces) && at < |pieces| && pieces[at].open.Some? && pieces[at].body == []
    ensures Split(text) != Rendered(pieces)
  {
    var p := pieces[at];
    if p.close.None? {
      SplitAround(pieces, at);
      OpenerHasNext(pieces[..at], p, pieces[at + 1..]);
    }
    BareOpenerIsNoParagraph(p);
    if Split(text) == Rendered(pieces) {
      SplitParts(text, at);
    }
  }

  /**
   * The joined text splits into the pieces' own paragraphs again exactly when every paragraph that opens a
   * section has some text; taken apart they are flat sections of the same names either way.
   */
  lemma JoinedSplitsAgain(pieces: seq<Piece>)
    requires pieces != [] && AllValid(pieces) && Flat(pieces)
    ensures Split(Join(Rendered(pieces))) == Rendered(Expanded(pieces)) <==> OpenersHaveText(pieces)
    ensures Flat(Expanded(pieces)) && Names(Expanded(pieces)) == Names(pieces)
  {
    ExpandedRuns(Outside, pieces);
    ExpandedNames(pieces);
    if OpenersHaveText(pieces) {
      SplitOfPieces(pieces);
    } else {
      var i :| 0 <= i < |pieces| && pieces[i].open.Some? && pieces[i].body == [];
      ExpandedHolds(pieces, pieces[i]);
      var at :| 0 <= at < |Expanded(pieces)| && Expanded(pieces)[at] == pieces[i];
      BareOpenerSplitsOtherwise(Expanded(pieces), Join(Rendered(pieces)), at);
    }
  }
}

/** The edits of a prompt variant, on the text of block A. */
module VariantEdits {
  import opened Results
  import opened Paragraphs
  import opened Sections

  datatype Edit =
    | Replace(needle: string, text: string)
    | Remove(needle: string)
    | AddAfter(needle: string, text: string)
    | AddLast(text: string)

  datatype EditError = NoParagraph | SeveralParagraphs | NoLifeSection

  const LIFE := "life"

  predicate IsSpace(c: char) {
    var u := c as int;
    || 9 <= u <= 13 || u == 32 || u == 0xA0 || u == 0x1680 || 0x2000 <= u <= 0x200A
    || u == 0x2028 || u == 0x2029 || u == 0x202F || u == 0x205F || u == 0x3000 || u == 0xFEFF
  }

  function TrimStart(text: string): (r: string)
    ensures r == [] || !IsSpace(r[0])
  {
    if text == [] || !IsSpace(text[0]) then text else TrimStart(text[1..])
  }

  function TrimEnd(text: string): (r: string)
    ensures r <= text
    ensures r == [] || !IsSpace(r[|r| - 1])
  {
    if text == [] || !IsSpace(text[|text| - 1]) then text else TrimEnd(text[..|text| - 1])
  }

  function Trim(text: string): string {
    TrimEnd(TrimStart(text))
  }

  /** An edit's text of which no paragraph can be taken for a tag; it may be nothing but white space, or several paragraphs. */
  predicate TagFree(text: string) {
    forall q | q in Split(Trim(text)) :: Safe(q)
  }

  predicate OccursAt(p: string, needle: string, i: nat) {
    i + |needle| <= |p| && p[i..i + |needle|] == needle
  }

  predicate Includes(p: string, needle: string) {
    exists i | 0 <= i <= |p| :: OccursAt(p, needle, i)
  }

  function Hits(paragraphs: seq<string>, needle: string, from: nat): (hits: seq<nat>)
    requires from <= |paragraphs|
    ensures forall k | 0 <= k < |hits| :: from <= hits[k] < |paragraphs| && Includes(paragraphs[hits[k]], needle)
    ensures forall at | from <= at < |paragraphs| && Includes(paragraphs[at], needle) :: at in hits
    ensures |hits| > 1 ==> hits[0] < hits[1]
    decreases |paragraphs| - from
  {
    if from == |paragraphs| then []
    else if Includes(paragraphs[from], needle) then [from] + Hits(paragraphs, needle, from + 1)
    else Hits(paragraphs, needle, from + 1)
  }

  function FindParagraph(paragraphs: seq<string>, needle: string): (r: Result<nat, EditError>)
    ensures r.Ok? ==> r.value < |paragraphs| && Includes(paragraphs[r.value], needle)
    ensures r.Ok? ==> forall at | 0 <= at < |paragraphs| && Includes(paragraphs[at], needle) :: at == r.value
  {
    var hits := Hits(paragraphs, needle, 0);
    if hits == [] then Err(NoParagraph) else if |hits| > 1 then Err(SeveralParagraphs) else Ok(hits[0])
  }

  lemma FindOnlyOne(paragraphs: seq<string>, needle: string, at: nat)
    requires at < |paragraphs| && Includes(paragraphs[at], needle)
    requires forall i | 0 <= i < |paragraphs| && i != at :: !Includes(paragraphs[i], needle)
    ensures FindParagraph(paragraphs, needle) == Ok(at)
  {
    var hits := Hits(paragraphs, needle, 0);
    assert at in hits;
    assert hits[0] == at;
  }

  /** Found exactly when one paragraph, and no other, contains the text; otherwise the error says which it was. */
  lemma FindsExactlyWhen(paragraphs: seq<string>, needle: string, at: nat)
    ensures FindParagraph(paragraphs, needle) == Ok(at) <==>
      && at < |paragraphs| && Includes(paragraphs[at], needle)
      && forall i | 0 <= i < |paragraphs| && i != at :: !Includes(paragraphs[i], needle)
    ensures FindParagraph(paragraphs, needle) == Err(NoParagraph) <==>
      forall i | 0 <= i < |paragraphs| :: !Includes(paragraphs[i], needle)
  {
    var hits := Hits(paragraphs, needle, 0);
    if hits != [] {
      assert Includes(paragraphs[hits[0]], needle);
    }
    if at < |paragraphs| && Includes(paragraphs[at], needle) && forall i | 0 <= i < |paragraphs| && i != at :: !Includes(paragraphs[i], needle) {
      FindOnlyOne(paragraphs, needle, at);
    }
  }

  /** Trimming takes white space off both ends, and nothing else. */
  lemma TrimTakesSpaceOff(text: string) returns (front: string, back: string)
    ensures text == front + Trim(text) + back
    ensures (forall c | c in front :: IsSpace(c)) && forall c | c in back :: IsSpace(c)
    ensures Trim(text) == [] || (!IsSpace(Trim(text)[0]) && !IsSpace(Trim(text)[|Trim(text)| - 1]))
  {
    front := TrimStartTakes(text);
    back := TrimEndTakes(TrimStart(text));
    assert text == front + (Trim(text) + back);
    assert Trim(text) != [] ==> Trim(text)[0] == TrimStart(text)[0];
  }

  lemma {:induction false} TrimStartTakes(text: string) returns (front: string)
    ensures text == front + TrimStart(text) && forall c | c in front :: IsSpace(c)
  {
    if text == [] || !IsSpace(text[0]) {
      front := [];
    } else {
      var more := TrimStartTakes(text[1..]);
      front := [text[0]] + more;
    }
  }

  lemma {:induction false} TrimEndTakes(text: string) returns (back: string)
    ensures text == TrimEnd(text) + back && forall c | c in back :: IsSpace(c)
    decreases |text|
  {
    if text == [] || !IsSpace(text[|text| - 1]) {
      back := [];
    } else {
      var less := TrimEndTakes(text[..|text| - 1]);
      back := less + [text[|text| - 1]];
    }
  }

  /** The first paragraph that closes the life section. */
  function FindLife(paragraphs: seq<string>, from: nat): (r: Result<nat, EditError>)
    requires from <= |paragraphs|
    ensures r.Ok? ==> from <= r.value < |paragraphs| && EndsWith(paragraphs[r.value], Close(LIFE))
    ensures forall at | from <= at < (if r.Ok? then r.value else |paragraphs|) :: !EndsWith(paragraphs[at], Close(LIFE))
    decreases |paragraphs| - from
  {
    if from == |paragraphs| then Err(NoLifeSection)
    else if EndsWith(paragraphs[from], Close(LIFE)) then Ok(from)
    else FindLife(paragraphs, from + 1)
  }

  /** The new text between the paragraph's own tags. */
  function Retext(paragraphs: seq<string>, at: nat, text: string, open: Option<string>, close: Option<string>): seq<string>
    requires at < |paragraphs|
  {
    paragraphs[at := Head(open) + Trim(text) + Tail(close)]
  }

  /** What is left without the paragraph at `at`; a lone tag of its goes to its neighbour. */
  function Reattach(rest: seq<string>, at: nat, open: Option<string>, close: Option<string>): seq<string>
    requires at <= |rest|
  {
    if open.Some? && close.None? && at < |rest| then rest[at := Open(open.value) + rest[at]]
    else if close.Some? && open.None? && at > 0 then rest[at - 1 := rest[at - 1] + Close(close.value)]
    else rest
  }

  /** The new text as a paragraph of its own after this one, whose closing tag it takes over. */
  function Insert(paragraphs: seq<string>, at: nat, text: string, close: Option<string>): seq<string>
    requires at < |paragraphs| && |Tail(close)| <= |paragraphs[at]|
  {
    paragraphs[..at] + [paragraphs[at][..|paragraphs[at]| - |Tail(close)|], Trim(text) + Tail(close)] + paragraphs[at + 1..]
  }

  lemma TailFits(p: string)
    ensures |Tail(CloseTag(p))| <= |p|
  {
    if CloseTag(p).Some? {
      CloseTagIsSuffix(p, CloseTag(p).value);
    }
  }

  function ReplaceParagraph(paragraphs: seq<string>, at: nat, text: string): seq<string>
    requires at < |paragraphs|
  {
    Retext(paragraphs, at, text, OpenTag(paragraphs[at]), CloseTag(paragraphs[at]))
  }

  function RemoveParagraph(paragraphs: seq<string>, at: nat): seq<string>
    requires at < |paragraphs|
  {
    Reattach(paragraphs[..at] + paragraphs[at + 1..], at, OpenTag(paragraphs[at]), CloseTag(paragraphs[at]))
  }

  function AddParagraph(paragraphs: seq<string>, at: nat, text: string): seq<string>
    requires at < |paragraphs|
  {
    TailFits(paragraphs[at]);
    Insert(paragraphs, at, text, CloseTag(paragraphs[at]))
  }

  function EditOne(paragraphs: seq<string>, edit: Edit): Result<seq<string>, EditError> {
    match edit
    case Replace(needle, text) =>
      var at :- FindParagraph(paragraphs, needle);
      Ok(ReplaceParagraph(paragraphs, at, text))
    case Remove(needle) =>
      var at :- FindParagraph(paragraphs, needle);
      Ok(RemoveParagraph(paragraphs, at))
    case AddAfter(needle, text) =>
      var at :- FindParagraph(paragraphs, needle);
      Ok(AddParagraph(paragraphs, at, text))
    case AddLast(text) =>
      var at :- FindLife(paragraphs, 0);
      Ok(AddParagraph(paragraphs, at, text))
  }

  function EditAll(paragraphs: seq<string>, edits: seq<Edit>): Result<seq<string>, EditError>
    decreases |edits|
  {
    if edits == [] then Ok(paragraphs)
    else
      var before :- EditAll(paragraphs, edits[..|edits| - 1]);
      EditOne(before, edits[|edits| - 1])
  }

  function EditText(text: string, edits: seq<Edit>): Result<string, EditError> {
    var paragraphs :- EditAll(Split(text), edits);
    Ok(Join(paragraphs))
  }

  lemma {:induction false} EarlierErrorStays(paragraphs: seq<string>, edits: seq<Edit>, n: nat)
    requires n <= |edits| && EditAll(paragraphs, edits[..n]).Err?
    ensures EditAll(paragraphs, edits) == EditAll(paragraphs, edits[..n])
    decreases |edits| - n
  {
    if n == |edits| {
      assert edits[..n] == edits;
    } else {
      assert edits[..n + 1][..n] == edits[..n];
      EarlierErrorStays(paragraphs, edits, n + 1);
    }
  }

  /** The edits applied in order to the paragraphs, which are spliced and overwritten as they go. */
  method ApplyVariant(blockA: string, edits: seq<Edit>) returns (r: Result<string, EditError>)
    ensures r == EditText(blockA, edits)
  {
    if edits == [] {
      JoinOfSplit(blockA);
      return Ok(blockA);
    }
    var paragraphs := Split(blockA);
    for i := 0 to |edits|
      invariant EditAll(Split(blockA), edits[..i]) == Ok(paragraphs)
    {
      assert edits[..i + 1][..i] == edits[..i];
      var edited := EditOne(paragraphs, edits[i]);
      if edited.Err? {
        EarlierErrorStays(Split(blockA), edits, i + 1);
        return Err(edited.error);
      }
      paragraphs := edited.value;
    }
    assert edits[..|edits|] == edits;
    return Ok(Join(paragraphs));
  }

  // ---- the same edits on pieces ------------------------------------------------------------------------

  /** The paragraph an edit is about, found in the rendered text. */
  function Found(pieces: seq<Piece>, edit: Edit): (r: Result<nat, EditError>)
    ensures r.Ok? ==> r.value < |pieces|
  {
    if edit.AddLast? then FindLife(Rendered(pieces), 0) else FindParagraph(Rendered(pieces), edit.needle)
  }

  function ApplyAt(pieces: seq<Piece>, edit: Edit, at: nat): seq<Piece>
    requires at < |pieces|
  {
    if edit.Replace? then Replaced(pieces, at, Trim(edit.text))
    else if edit.Remove? then Removed(pieces, at)
    else Added(pieces, at, Trim(edit.text))
  }

  /** The same edit on pieces. */
  function OnPieces(pieces: seq<Piece>, edit: Edit): Result<seq<Piece>, EditError> {
    var at :- Found(pieces, edit);
    Ok(ApplyAt(pieces, edit, at))
  }

  lemma RenderedSplice(pieces: seq<Piece>, at: nat, skip: nat, middle: seq<Piece>)
    requires at + skip <= |pieces|
    ensures Rendered(pieces[..at] + middle + pieces[at + skip..])
         == Rendered(pieces)[..at] + Rendered(middle) + Rendered(pieces)[at + skip..]
  {
    RenderedConcat(pieces[..at] + middle, pieces[at + skip..]);
    RenderedConcat(pieces[..at], middle);
    assert Rendered(pieces[..at]) == Rendered(pieces)[..at];
    assert Rendered(pieces[at + skip..]) == Rendered(pieces)[at + skip..];
  }

  lemma RetextOnPieces(pieces: seq<Piece>, at: nat, text: string)
    requires at < |pieces|
    ensures Retext(Rendered(pieces), at, text, pieces[at].open, pieces[at].close) == Rendered(Replaced(pieces, at, Trim(text)))
  {
    var q := pieces[at].(body := Trim(text));
    RenderedUpdate(pieces, at, q);
    assert pieces[at := q] == Replaced(pieces, at, Trim(text));
  }

  lemma InsertOnPieces(pieces: seq<Piece>, at: nat, text: string)
    requires at < |pieces|
    ensures |Tail(pieces[at].close)| <= |Render(pieces[at])|
    ensures Insert(Rendered(pieces), at, text, pieces[at].close) == Rendered(Added(pieces, at, Trim(text)))
  {
    var p := pieces[at];
    var q, r := p.(close := None), Piece(None, Trim(text), p.close);
    RenderedSplice(pieces, at, 1, [q, r]);
    CloseTaken(p, Trim(text));
    assert Rendered([q, r]) == [Render(q), Render(r)];
  }

  /** Taking the closing tag off a paragraph and putting it on the next. */
  lemma CloseTaken(p: Piece, body: string)
    ensures Render(p) == Render(p.(close := None)) + Tail(p.close)
    ensures Render(p)[..|Render(p)| - |Tail(p.close)|] == Render(p.(close := None))
    ensures Render(Piece(None, body, p.close)) == body + Tail(p.close)
  {
    var front := Head(p.open) + p.body;
    assert Render(p.(close := None)) == front;
    assert Render(p) == front + Tail(p.close);
  }

  /** In flat sections a lone opening tag lands on a paragraph that opens nothing, a lone closing tag on one that closes nothing. */
  predicate RoomForTags(pieces: seq<Piece>, at: nat)
    requires at < |pieces|
  {
    && (pieces[at].open.Some? && pieces[at].close.None? && at + 1 < |pieces| ==> pieces[at + 1].open.None?)
    && (pieces[at].close.Some? && pieces[at].open.None? && at > 0 ==> pieces[at - 1].close.None?)
  }

  lemma FlatHasRoom(pieces: seq<Piece>, at: nat)
    requires Flat(pieces) && at < |pieces|
    ensures RoomForTags(pieces, at)
  {
    var front, p, back := pieces[..at], pieces[at], pieces[at + 1..];
    SplitAround(pieces, at);
    if p.open.Some? && p.close.None? {
      OpenerHasNext(front, p, back);
    } else if p.open.None? && p.close.Some? {
      CloserHasPrevious(front, p, back);
    }
  }

  lemma ReattachOnPieces(rest: seq<Piece>, at: nat, open: Option<string>, close: Option<string>)
    requires at <= |rest|
    requires open.Some? && close.None? && at < |rest| ==> rest[at].open.None?
    requires close.Some? && open.None? && at > 0 ==> rest[at - 1].close.None?
    ensures Reattach(Rendered(rest), at, open, close) == Rendered(Reattached(rest, at, open, close))
  {
    if open.Some? && close.None? && at < |rest| {
      OpenMoves(rest[at], open.value);
      RenderedUpdate(rest, at, rest[at].(open := open));
    } else if close.Some? && open.None? && at > 0 {
      CloseMoves(rest[at - 1], close.value);
      RenderedUpdate(rest, at - 1, rest[at - 1].(close := close));
    }
  }

  lemma RenderedWithout(pieces: seq<Piece>, at: nat)
    requires at < |pieces|
    ensures Rendered(pieces[..at] + pieces[at + 1..]) == Rendered(pieces)[..at] + Rendered(pieces)[at + 1..]
  {
  }

  lemma RemoveOnPieces(pieces: seq<Piece>, at: nat)
    requires at < |pieces| && RoomForTags(pieces, at)
    ensures Reattach(Rendered(pieces)[..at] + Rendered(pieces)[at + 1..], at, pieces[at].open, pieces[at].close)
         == Rendered(Removed(pieces, at))
  {
    RenderedWithout(pieces, at);
    ReattachOnPieces(pieces[..at] + pieces[at + 1..], at, pieces[at].open, pieces[at].close);
  }

  lemma RenderedUpdate(pieces: seq<Piece>, at: nat, p: Piece)
    requires at < |pieces|
    ensures Rendered(pieces[at := p]) == Rendered(pieces)[at := Render(p)]
  {
  }

  lemma OpenMoves(q: Piece, name: string)
    requires q.open.None?
    ensures Render(q.(open := Some(name))) == Open(name) + Render(q)
  {
  }

  lemma CloseMoves(q: Piece, name: string)
    requires q.close.None?
    ensures Render(q.(close := Some(name))) == Render(q) + Close(name)
  {
    assert Render(q) == Head(q.open) + q.body;
  }

  predicate TagFreeEdit(edit: Edit) {
    edit.Remove? || TagFree(edit.text)
  }

  /** At any paragraph of valid, flat sections the three edits of the text are those of the sections. */
  lemma ParagraphEditsOnPieces(pieces: seq<Piece>, at: nat, text: string)
    requires AllValid(pieces) && Flat(pieces) && at < |pieces|
    ensures ReplaceParagraph(Rendered(pieces), at, text) == Rendered(Replaced(pieces, at, Trim(text)))
    ensures RemoveParagraph(Rendered(pieces), at) == Rendered(Removed(pieces, at))
    ensures AddParagraph(Rendered(pieces), at, text) == Rendered(Added(pieces, at, Trim(text)))
  {
    RenderHasTags(pieces[at]);
    FlatHasRoom(pieces, at);
    RetextOnPieces(pieces, at, text);
    RemoveOnPieces(pieces, at);
    InsertOnPieces(pieces, at, text);
  }

  /** On valid, flat sections the text edit is the edit of the sections. */
  lemma EditIsOnPieces(pieces: seq<Piece>, edit: Edit)
    requires AllValid(pieces) && Flat(pieces)
    ensures EditOne(Rendered(pieces), edit).Ok? <==> OnPieces(pieces, edit).Ok?
    ensures OnPieces(pieces, edit).Ok? ==> EditOne(Rendered(pieces), edit) == Ok(Rendered(OnPieces(pieces, edit).value))
  {
    var found := Found(pieces, edit);
    if found.Ok? {
      ParagraphEditsOnPieces(pieces, found.value, if edit.Remove? then [] else edit.text);
    }
  }

  lemma WithOpen(p: Piece, open: Option<string>)
    requires ValidPiece(p) && (open.Some? ==> IsName(open.value))
    ensures ValidPiece(p.(open := open))
  {
  }

  lemma WithClose(p: Piece, close: Option<string>)
    requires ValidPiece(p) && (close.Some? ==> IsName(close.value))
    ensures ValidPiece(p.(close := close))
  {
  }

  lemma WithBody(p: Piece, body: string)
    requires ValidPiece(p) && IsBody(body)
    ensures ValidPiece(p.(body := body)) && ValidPiece(p.(close := None)) && ValidPiece(Piece(None, body, p.close))
  {
  }

  lemma SpliceKeepsValid(pieces: seq<Piece>, at: nat, skip: nat, middle: seq<Piece>)
    requires AllValid(pieces) && AllValid(middle) && at + skip <= |pieces|
    ensures AllValid(pieces[..at] + middle + pieces[at + skip..])
  {
  }

  lemma RemovedStaysValid(pieces: seq<Piece>, at: nat)
    requires AllValid(pieces) && at < |pieces|
    ensures AllValid(Removed(pieces, at))
  {
    var p, rest := pieces[at], pieces[..at] + pieces[at + 1..];
    SpliceKeepsValid(pieces, at, 1, []);
    assert pieces[..at] + [] + pieces[at + 1..] == rest;
    if p.open.Some? && p.close.None? && at < |rest| {
      WithOpen(rest[at], p.open);
    } else if p.close.Some? && p.open.None? && at > 0 {
      WithClose(rest[at - 1], p.close);
    }
  }

  lemma NewTextStaysValid(pieces: seq<Piece>, at: nat, body: string)
    requires AllValid(pieces) && at < |pieces| && IsBody(body)
    ensures AllValid(Replaced(pieces, at, body)) && AllValid(Added(pieces, at, body))
  {
    var p := pieces[at];
    WithBody(p, body);
    SpliceKeepsValid(pieces, at, 1, [p.(body := body)]);
    SpliceKeepsValid(pieces, at, 1, [p.(close := None), Piece(None, body, p.close)]);
  }

  lemma EditKeepsValid(pieces: seq<Piece>, edit: Edit)
    requires AllValid(pieces) && TagFreeEdit(edit) && OnPieces(pieces, edit).Ok?
    ensures AllValid(OnPieces(pieces, edit).value)
  {
    var at := Found(pieces, edit).value;
    if edit.Remove? {
      RemovedStaysValid(pieces, at);
    } else {
      TagFreeIsBody(edit.text);
      NewTextStaysValid(pieces, at, Trim(edit.text));
    }
  }

  lemma TagFreeIsBody(text: string)
    requires TagFree(text)
    ensures IsBody(Trim(text))
  {
  }

  ghost predicate IsSubsequence(a: seq<string>, b: seq<string>) {
    if a == [] then true
    else if b == [] then false
    else (a[0] == b[0] && IsSubsequence(a[1..], b[1..])) || IsSubsequence(a, b[1..])
  }

  lemma {:induction false} SubsequenceReflexive(a: seq<string>)
    ensures IsSubsequence(a, a)
    decreases |a|
  {
    if a != [] {
      SubsequenceReflexive(a[1..]);
    }
  }

  lemma {:induction false} SubsequenceTransitive(a: seq<string>, b: seq<string>, c: seq<string>)
    requires IsSubsequence(a, b) && IsSubsequence(b, c)
    ensures IsSubsequence(a, c)
    decreases |c|
  {
    if a != [] && b != [] && c != [] {
      if IsSubsequence(b, c[1..]) {
        SubsequenceTransitive(a, b, c[1..]);
      } else if a[0] == b[0] && IsSubsequence(a[1..], b[1..]) {
        SubsequenceTransitive(a[1..], b[1..], c[1..]);
      } else {
        SubsequenceTransitive(a, b[1..], c[1..]);
      }
    }
  }

  lemma {:induction false} SubsequenceWithout(a: seq<string>, x: seq<string>, b: seq<string>)
    ensures IsSubsequence(a + b, a + x + b)
    decreases |a|, |x|
  {
    if a != [] {
      SubsequenceWithout(a[1..], x, b);
      assert (a + b)[1..] == a[1..] + b && (a + x + b)[1..] == a[1..] + x + b;
    } else if x != [] {
      SubsequenceWithout(a, x[1..], b);
      assert (a + x + b)[1..] == a + x[1..] + b;
    } else {
      SubsequenceReflexive(b);
      assert a + b == b && a + x + b == b;
    }
  }

  lemma RemoveTakesAtMostOneName(pieces: seq<Piece>, at: nat)
    requires Flat(pieces) && at < |pieces|
    ensures Flat(Removed(pieces, at)) && IsSubsequence(Names(Removed(pieces, at)), Names(pieces))
  {
    RemoveKeepsSections(pieces, at);
    SubsequenceReflexive(Names(pieces));
    NamesAround(pieces, at);
    SubsequenceWithout(Names(pieces[..at]), Names([pieces[at]]), Names(pieces[at + 1..]));
  }

  lemma NamesAround(pieces: seq<Piece>, at: nat)
    requires at < |pieces|
    ensures Names(pieces) == Names(pieces[..at]) + Names([pieces[at]]) + Names(pieces[at + 1..])
  {
    SplitAround(pieces, at);
    NamesInPlace(pieces[..at], [pieces[at]], pieces[at + 1..]);
  }

  lemma NewTextKeepsNames(pieces: seq<Piece>, at: nat, body: string)
    requires Flat(pieces) && at < |pieces|
    ensures Flat(Replaced(pieces, at, body)) && Names(Replaced(pieces, at, body)) == Names(pieces)
    ensures Flat(Added(pieces, at, body)) && Names(Added(pieces, at, body)) == Names(pieces)
    ensures IsSubsequence(Names(pieces), Names(pieces))
  {
    ReplaceKeepsSections(pieces, at, body);
    AddKeepsSections(pieces, at, body);
    SubsequenceReflexive(Names(pieces));
  }

  /** One edit keeps the sections flat, with the same names in the same order; only a removal can take one away. */
  lemma EditKeepsSections(pieces: seq<Piece>, edit: Edit)
    requires Flat(pieces) && OnPieces(pieces, edit).Ok?
    ensures var after := OnPieces(pieces, edit).value;
      Flat(after) && IsSubsequence(Names(after), Names(pieces)) && (!edit.Remove? ==> Names(after) == Names(pieces))
  {
    var found := Found(pieces, edit);
    if edit.Remove? {
      RemoveTakesAtMostOneName(pieces, found.value);
    } else {
      NewTextKeepsNames(pieces, found.value, Trim(edit.text));
    }
  }

  predicate AllTagFree(edits: seq<Edit>) {
    forall i | 0 <= i < |edits| :: TagFreeEdit(edits[i])
  }

  predicate NoneRemoves(edits: seq<Edit>) {
    forall i | 0 <= i < |edits| :: !edits[i].Remove?
  }

  /**
   * Any list of tag-free edits that apply turns flat, balanced sections into flat, balanced sections, with
   * the same names in the same order, less those that lost their only paragraph.
   */
  lemma {:induction false} EditsKeepSections(pieces: seq<Piece>, edits: seq<Edit>) returns (after: seq<Piece>)
    requires AllValid(pieces) && Flat(pieces) && AllTagFree(edits) && EditAll(Rendered(pieces), edits).Ok?
    ensures EditAll(Rendered(pieces), edits) == Ok(Rendered(after)) && OnAll(pieces, edits) == Ok(after)
    ensures AllValid(after) && Flat(after) && IsSubsequence(Names(after), Names(pieces))
    ensures NoneRemoves(edits) ==> Names(after) == Names(pieces)
    decreases |edits|
  {
    if edits == [] {
      after := pieces;
      SubsequenceReflexive(Names(pieces));
    } else {
      var n := |edits| - 1;
      var before := EditsKeepSections(pieces, edits[..n]);
      EditIsOnPieces(before, edits[n]);
      after := OnPieces(before, edits[n]).value;
      EditKeepsValid(before, edits[n]);
      EditKeepsSections(before, edits[n]);
      SubsequenceTransitive(Names(after), Names(before), Names(pieces));
    }
  }

  /**
   * The same for the texts themselves. What comes out splits into those sections' paragraphs again exactly
   * when no paragraph was left that opens a section and has no text: then the tag's line end runs into a
   * blank line. Taken apart into single paragraphs the sections stay flat, with the same names.
   */
  lemma VariantKeepsSections(blockA: string, pieces: seq<Piece>, edits: seq<Edit>) returns (after: seq<Piece>)
    requires Split(blockA) == Rendered(pieces) && AllValid(pieces) && Flat(pieces) && AllTagFree(edits)
    requires EditText(blockA, edits).Ok?
    ensures EditText(blockA, edits) == Ok(Join(Rendered(after))) && OnAll(pieces, edits) == Ok(after)
    ensures AllValid(after) && Flat(after) && IsSubsequence(Names(after), Names(pieces))
    ensures NoneRemoves(edits) ==> Names(after) == Names(pieces)
    ensures after != [] ==>
      && (Split(EditText(blockA, edits).value) == Rendered(Expanded(after)) <==> OpenersHaveText(after))
      && Flat(Expanded(after)) && Names(Expanded(after)) == Names(after)
  {
    after := EditsKeepSections(pieces, edits);
    if after != [] {
      JoinedSplitsAgain(after);
    }
  }

  /** What can be checked before: no edit's text is only white space. */
  predicate NoneBlank(edits: seq<Edit>) {
    forall i | 0 <= i < |edits| :: edits[i].Remove? || Trim(edits[i].text) != []
  }

  /** Without blank edit texts, and with text in every paragraph to begin with, no opener is ever left without. */
  lemma TextEverywhereStays(pieces: seq<Piece>, edits: seq<Edit>, after: seq<Piece>)
    requires OnAll(pieces, edits) == Ok(after) && NoneBlank(edits) && [] !in Bodies(pieces)
    ensures OpenersHaveText(after)
  {
    if [] in Bodies(after) {
      EditsKeepBodies(pieces, edits, after, []);
    }
    forall i | 0 <= i < |after| ensures after[i].body != [] {
      assert Bodies(after)[i] == after[i].body;
    }
  }

  /** One replacement: the text splits again exactly unless it is blank and the paragraph opens a section. */
  lemma ReplacementSplitsAgain(pieces: seq<Piece>, at: nat, text: string)
    requires AllValid(pieces) && Flat(pieces) && [] !in Bodies(pieces) && at < |pieces| && TagFree(text)
    ensures var edited := ReplaceParagraph(Rendered(pieces), at, text);
      Split(Join(edited)) == Rendered(Expanded(Replaced(pieces, at, Trim(text)))) <==> Trim(text) != [] || pieces[at].open.None?
  {
    var after := Replaced(pieces, at, Trim(text));
    ParagraphEditsOnPieces(pieces, at, text);
    TagFreeIsBody(text);
    NewTextStaysValid(pieces, at, Trim(text));
    ReplaceKeepsSections(pieces, at, Trim(text));
    JoinedSplitsAgain(after);
    assert after[at].open == pieces[at].open && after[at].body == Trim(text);
    forall i | 0 <= i < |after| && i != at ensures after[i].body != [] {
      assert Bodies(pieces)[i] == after[i].body;
    }
  }

  /** Two edits neither of which breaks anything alone: blank out the paragraph after an opener, then remove the opener. */
  lemma BlankThenRemoveBreaks(pieces: seq<Piece>, at: nat, text: string)
    requires AllValid(pieces) && Flat(pieces) && at < |pieces| && Trim(text) == []
    requires pieces[at].open.Some? && pieces[at].close.None?
    ensures at + 1 < |pieces|
    ensures var blanked := ReplaceParagraph(Rendered(pieces), at + 1, text);
      var after := Removed(Replaced(pieces, at + 1, []), at);
      RemoveParagraph(blanked, at) == Rendered(after) && Split(Join(Rendered(after))) != Rendered(Expanded(after))
  {
    SplitAround(pieces, at);
    OpenerHasNext(pieces[..at], pieces[at], pieces[at + 1..]);
    var blanked := Replaced(pieces, at + 1, []);
    ParagraphEditsOnPieces(pieces, at + 1, text);
    EmptyIsBody();
    NewTextStaysValid(pieces, at + 1, []);
    ReplaceKeepsSections(pieces, at + 1, []);
    ParagraphEditsOnPieces(blanked, at, []);
    RemovedStaysValid(blanked, at);
    RemoveKeepsSections(blanked, at);
    var after := Removed(blanked, at);
    assert after[at].open == pieces[at].open && after[at].body == [];
    JoinedSplitsAgain(after);
  }

  lemma EmptyIsBody()
    ensures IsBody([])
  {
    SplitOfParagraph([]);
    if OpenTag([] + ['\n']).Some? {
      OpenTagIsPrefix([] + ['\n'], OpenTag([] + ['\n']).value);
    }
    if CloseTag(['\n'] + []).Some? {
      CloseTagIsSuffix(['\n'] + [], CloseTag(['\n'] + []).value);
    }
  }

  /** Every body afterwards is a body from before or the text of an edit. */
  lemma {:induction false} EditsKeepBodies(pieces: seq<Piece>, edits: seq<Edit>, after: seq<Piece>, body: string)
    requires OnAll(pieces, edits) == Ok(after) && body in Bodies(after)
    ensures body in Bodies(pieces) || exists i :: 0 <= i < |edits| && !edits[i].Remove? && Trim(edits[i].text) == body
    decreases |edits|
  {
    if edits != [] {
      var n := |edits| - 1;
      var before := OnAll(pieces, edits[..n]).value;
      var edit := edits[n];
      OneEditKeepsBodies(before, edit, body);
      if body in Bodies(before) {
        EditsKeepBodies(pieces, edits[..n], before, body);
      }
    }
  }

  lemma OneEditKeepsBodies(pieces: seq<Piece>, edit: Edit, body: string)
    requires OnPieces(pieces, edit).Ok? && body in Bodies(OnPieces(pieces, edit).value)
    ensures body in Bodies(pieces) || (!edit.Remove? && Trim(edit.text) == body)
  {
    AppliedBodies(pieces, edit, Found(pieces, edit).value);
  }

  /** What an edit does to the texts. */
  function BodiesAfter(bodies: seq<string>, edit: Edit, at: nat): seq<string>
    requires at < |bodies|
  {
    if edit.Replace? then bodies[at := Trim(edit.text)]
    else if edit.Remove? then bodies[..at] + bodies[at + 1..]
    else bodies[..at + 1] + [Trim(edit.text)] + bodies[at + 1..]
  }

  lemma AppliedBodies(pieces: seq<Piece>, edit: Edit, at: nat)
    requires at < |pieces|
    ensures Bodies(ApplyAt(pieces, edit, at)) == BodiesAfter(Bodies(pieces), edit, at)
  {
    EditedBodies(pieces, at, if edit.Remove? then [] else Trim(edit.text));
  }

  function OnAll(pieces: seq<Piece>, edits: seq<Edit>): Result<seq<Piece>, EditError>
    decreases |edits|
  {
    if edits == [] then Ok(pieces)
    else
      var before :- OnAll(pieces, edits[..|edits| - 1]);
      OnPieces(before, edits[|edits| - 1])
  }

  // ---- following one paragraph through the edits ---------------------------------------------------------

  /** Where an edit leaves the paragraph at `i`: None when that is the one it replaces or removes. */
  function Place(pieces: seq<Piece>, edit: Edit, i: nat): Option<nat> {
    match Found(pieces, edit)
    case Err(_) => None
    case Ok(at) =>
      if edit.Replace? then (if i == at then None else Some(i))
      else if edit.Remove? then (if i == at then None else if i < at then Some(i) else Some(i - 1))
      else if i <= at then Some(i)
      else Some(i + 1)
  }

  /** Where a list of edits leaves it: None as soon as one of them hits it. */
  function PlaceAfter(pieces: seq<Piece>, edits: seq<Edit>, i: nat): Option<nat>
    decreases |edits|
  {
    if edits == [] then Some(i)
    else
      var n := |edits| - 1;
      var before := OnAll(pieces, edits[..n]);
      if before.Err? then None
      else
        var j :- PlaceAfter(pieces, edits[..n], i);
        Place(before.value, edits[n], j)
  }

  lemma OneEditKeepsPlace(pieces: seq<Piece>, edit: Edit, i: nat)
    requires OnPieces(pieces, edit).Ok? && i < |pieces| && Place(pieces, edit, i).Some?
    ensures var after, j := Bodies(OnPieces(pieces, edit).value), Place(pieces, edit, i).value;
      j < |after| && after[j] == Bodies(pieces)[i]
  {
    var at := Found(pieces, edit).value;
    AppliedBodies(pieces, edit, at);
    TextStays(Bodies(pieces), edit, at, i, Place(pieces, edit, i).value);
  }

  lemma TextStays(bodies: seq<string>, edit: Edit, at: nat, i: nat, j: nat)
    requires at < |bodies| && i < |bodies|
    requires edit.Replace? ==> i != at && j == i
    requires edit.Remove? ==> i != at && j == if i < at then i else i - 1
    requires !edit.Replace? && !edit.Remove? ==> j == if i <= at then i else i + 1
    ensures j < |BodiesAfter(bodies, edit, at)| && BodiesAfter(bodies, edit, at)[j] == bodies[i]
  {
  }

  /** Every paragraph that no replacement and no removal hits is still there, with its text. */
  lemma {:induction false} UntargetedKeepsText(pieces: seq<Piece>, edits: seq<Edit>, after: seq<Piece>, i: nat)
    requires OnAll(pieces, edits) == Ok(after) && i < |pieces| && PlaceAfter(pieces, edits, i).Some?
    ensures var j := PlaceAfter(pieces, edits, i).value; j < |after| && after[j].body == pieces[i].body
    decreases |edits|
  {
    if edits != [] {
      var n := |edits| - 1;
      var before := OnAll(pieces, edits[..n]).value;
      UntargetedKeepsText(pieces, edits[..n], before, i);
      OneEditKeepsPlace(before, edits[n], PlaceAfter(pieces, edits[..n], i).value);
    }
  }

  /** And they keep their order. */
  lemma {:induction false} UntargetedKeepOrder(pieces: seq<Piece>, edits: seq<Edit>, i: nat, k: nat)
    requires i < k && PlaceAfter(pieces, edits, i).Some? && PlaceAfter(pieces, edits, k).Some?
    ensures PlaceAfter(pieces, edits, i).value < PlaceAfter(pieces, edits, k).value
    decreases |edits|
  {
    if edits != [] {
      UntargetedKeepOrder(pieces, edits[..|edits| - 1], i, k);
    }
  }

  /** All names in the tags of the pieces are among these. */
  predicate Carry(pieces: seq<Piece>, names: set<string>) {
    forall i | 0 <= i < |pieces| :: MayCarry(pieces[i].open, names) && MayCarry(pieces[i].close, names)
  }

  predicate MayCarry(tag: Option<string>, names: set<string>) {
    tag.Some? ==> tag.value in names
  }

  /** What can be checked before: the edit quotes nothing of this text, alone or with any of these tags around it. */
  ghost predicate Untargeted(edit: Edit, body: string, names: set<string>) {
    edit.Replace? || edit.Remove? ==>
      forall open, close | MayCarry(open, names) && MayCarry(close, names) ::
        !Includes(Render(Piece(open, body, close)), edit.needle)
  }

  lemma NewTextCarriesNoOther(pieces: seq<Piece>, at: nat, body: string, names: set<string>)
    requires Carry(pieces, names) && at < |pieces|
    ensures Carry(Replaced(pieces, at, body), names) && Carry(Added(pieces, at, body), names)
  {
  }

  lemma RemovalCarriesNoOther(pieces: seq<Piece>, at: nat, names: set<string>)
    requires Carry(pieces, names) && at < |pieces|
    ensures Carry(Removed(pieces, at), names)
  {
    assert Carry(pieces[..at] + pieces[at + 1..], names);
  }

  lemma EditCarriesNoOther(pieces: seq<Piece>, edit: Edit, names: set<string>)
    requires Carry(pieces, names) && OnPieces(pieces, edit).Ok?
    ensures Carry(OnPieces(pieces, edit).value, names)
  {
    var at := Found(pieces, edit).value;
    if edit.Remove? {
      RemovalCarriesNoOther(pieces, at, names);
    } else {
      NewTextCarriesNoOther(pieces, at, Trim(edit.text), names);
    }
  }

  lemma OneEditMisses(pieces: seq<Piece>, edit: Edit, i: nat, names: set<string>)
    requires OnPieces(pieces, edit).Ok? && i < |pieces| && Carry(pieces, names) && Untargeted(edit, pieces[i].body, names)
    ensures Place(pieces, edit, i).Some?
  {
    assert pieces[i] == Piece(pieces[i].open, pieces[i].body, pieces[i].close);
  }

  /** A paragraph none of whose possible renderings an edit quotes is hit by none: with the lemma above, it keeps its text. */
  lemma {:induction false} UntargetedIsMissed(
    pieces: seq<Piece>, edits: seq<Edit>, after: seq<Piece>, i: nat, names: set<string>)
    requires OnAll(pieces, edits) == Ok(after) && i < |pieces| && Carry(pieces, names)
    requires forall k | 0 <= k < |edits| :: Untargeted(edits[k], pieces[i].body, names)
    ensures PlaceAfter(pieces, edits, i).Some? && Carry(after, names)
    decreases |edits|
  {
    if edits != [] {
      var n := |edits| - 1;
      var before := OnAll(pieces, edits[..n]).value;
      UntargetedIsMissed(pieces, edits[..n], before, i, names);
      UntargetedKeepsText(pieces, edits[..n], before, i);
      OneEditMisses(before, edits[n], PlaceAfter(pieces, edits[..n], i).value, names);
      EditCarriesNoOther(before, edits[n], names);
    }
  }

  /** A needle with a character that is in neither the text nor any tag quotes nothing of the paragraph. */
  lemma ForeignCharacterMisses(edit: Edit, body: string, names: set<string>, c: char)
    requires !edit.AddLast? && c in edit.needle && c !in body && c !in ['<', '>', '/', '\n']
    requires forall name | name in names :: c !in name
    ensures Untargeted(edit, body, names)
  {
    forall open, close | MayCarry(open, names) && MayCarry(close, names)
      ensures !Includes(Render(Piece(open, body, close)), edit.needle)
    {
      var p := Render(Piece(open, body, close));
      assert c !in Head(open) && c !in Tail(close);
      assert c !in p;
      ForeignCharacterIsAbsent(p, edit.needle, c);
    }
  }

  lemma ForeignCharacterIsAbsent(p: string, needle: string, c: char)
    requires c in needle && c !in p
    ensures !Includes(p, needle)
  {
    var k :| 0 <= k < |needle| && needle[k] == c;
    forall i | 0 <= i <= |p| ensures !OccursAt(p, needle, i) {
      assert i + |needle| <= |p| ==> p[i..i + |needle|][k] != c;
    }
  }

  /** One section of three paragraphs, the second about to be replaced and the third to be removed. */
  function ThreeParagraphs(): seq<Piece> {
    [Piece(Some("s"), "aaa", None), Piece(None, "bbb", None), Piece(None, "ccc", Some("s"))]
  }

  const TWO_EDITS: seq<Edit> := [Replace("bbb", "ddd"), Remove("ccc")]

  function SecondReplaced(): seq<Piece> {
    Replaced(ThreeParagraphs(), 1, "ddd")
  }

  lemma FirstIsFound()
    ensures Found(ThreeParagraphs(), TWO_EDITS[0]) == Ok(1)
  {
    FindInThree("aaa", "bbb", "ccc", "bbb", 1);
    assert Rendered(ThreeParagraphs()) == ThreeRendered("aaa", "bbb", "ccc");
  }

  lemma SecondIsFound()
    ensures Found(SecondReplaced(), TWO_EDITS[1]) == Ok(2)
  {
    FindInThree("aaa", "ddd", "ccc", "ccc", 2);
    assert Rendered(SecondReplaced()) == ThreeRendered("aaa", "ddd", "ccc");
  }

  lemma OnTwo(pieces: seq<Piece>, first: Edit, second: Edit, between: seq<Piece>)
    requires OnPieces(pieces, first) == Ok(between)
    ensures OnAll(pieces, [first, second]) == OnPieces(between, second)
  {
    assert [first, second][..1] == [first] && [first][..0] == [];
    assert OnAll(pieces, []) == Ok(pieces);
    assert OnAll(pieces, [first]) == Ok(between);
  }

  /** Both edits apply, and leave the first paragraph untargeted: it is still there afterwards. */
  lemma OthersAreReplacedAndRemoved() returns (after: seq<Piece>)
    ensures Carry(ThreeParagraphs(), {"s"})
    ensures forall k | 0 <= k < |TWO_EDITS| :: Untargeted(TWO_EDITS[k], ThreeParagraphs()[0].body, {"s"})
    ensures OnAll(ThreeParagraphs(), TWO_EDITS) == Ok(after) && PlaceAfter(ThreeParagraphs(), TWO_EDITS, 0).Some?
  {
    FirstIsFound();
    TrimOfWord();
    SecondIsFound();
    OnTwo(ThreeParagraphs(), TWO_EDITS[0], TWO_EDITS[1], SecondReplaced());
    after := Removed(SecondReplaced(), 2);
    BothMissTheFirst();
    UntargetedIsMissed(ThreeParagraphs(), TWO_EDITS, after, 0, {"s"});
  }

  lemma BothMissTheFirst()
    ensures Carry(ThreeParagraphs(), {"s"})
    ensures forall k | 0 <= k < |TWO_EDITS| :: Untargeted(TWO_EDITS[k], ThreeParagraphs()[0].body, {"s"})
  {
    ForeignCharacterMisses(TWO_EDITS[0], "aaa", {"s"}, 'b');
    ForeignCharacterMisses(TWO_EDITS[1], "aaa", {"s"}, 'c');
  }

  lemma TrimOfWord()
    ensures Trim("ddd") == "ddd"
  {
  }

  function ThreeRendered(first: string, second: string, third: string): seq<string> {
    [Render(Piece(Some("s"), first, None)), Render(Piece(None, second, None)), Render(Piece(None, third, Some("s")))]
  }

  lemma FindInThree(first: string, second: string, third: string, needle: string, at: nat)
    requires 0 < at < 3 && needle == (if at == 1 then second else third) && needle != []
    requires needle[0] !in first && (at == 1 ==> needle[0] !in third) && (at == 2 ==> needle[0] !in second)
    requires needle[0] !in ['<', '>', '/', '\n', 's']
    ensures FindParagraph(ThreeRendered(first, second, third), needle) == Ok(at)
  {
    var paragraphs := ThreeRendered(first, second, third);
    var c := needle[0];
    assert c !in Head(Some("s")) && c !in Tail(Some("s"));
    forall i | 0 <= i < 3 && i != at ensures !Includes(paragraphs[i], needle) {
      ForeignCharacterIsAbsent(paragraphs[i], needle, c);
    }
    assert OccursAt(paragraphs[at], needle, 0);
    FindOnlyOne(paragraphs, needle, at);
  }
}
