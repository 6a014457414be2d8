/** How one conversation entry is drawn: a spinner while the answer is
    pending, the user's text verbatim, and the assistant's text through
    `formatResponse`, four global regular-expression replacements that
    insert HTML for bold, italic, code and legal numbering. The four
    replacements are modelled with the matching rules of JavaScript's
    `String.prototype.replace` with a global pattern: the leftmost match is
    taken, scanning resumes after it, `.*?` is lazy and does not cross a
    line terminator, and `\d+` is greedy. */
module ChatMessage {
  import opened Results
  import opened Text
  import opened App

  const StrongOpen := "<strong>"
  const StrongClose := "</strong>"
  const EmOpen := "<em>"
  const EmClose := "</em>"
  const CodeOpen := "<code class=\"bg-gray-200 px-1 py-0.5 rounded text-sm\">"
  const CodeClose := "</code>"

  /** `t` starts with `d`. */
  predicate StartsWith(t: string, d: string) {
    |d| <= |t| && t[..|d|] == d
  }

  predicate NoLineTerminator(t: string) {
    forall k :: 0 <= k < |t| ==> !IsLineTerminator(t[k])
  }

  /** The lazy `(.*?)` followed by the closing delimiter `d`: the smallest
      offset at which `d` starts with no line terminator before it. */
  function FindClose(t: string, d: string): (r: Option<nat>)
    requires d != []
    ensures r.Some? ==> r.value + |d| <= |t| && StartsWith(t[r.value..], d) && NoLineTerminator(t[..r.value])
    ensures r.Some? ==> forall k :: 0 <= k < r.value ==> !StartsWith(t[k..], d)
    ensures r.None? ==> forall k :: 0 <= k <= |t| && NoLineTerminator(t[..k]) ==> !StartsWith(t[k..], d)
    decreases |t|
  {
    if StartsWith(t, d) then Some(0)
    else if t == [] || IsLineTerminator(t[0]) then None
    else
      match FindClose(t[1..], d)
      case None =>
        NoCloseAfterFirst(t, d);
        None
      case Some(j) =>
        CloseAfterFirst(t, d, j);
        Some(j + 1)
  }

  /** No closing delimiter on the line after the first character, and none
      at the first character: none on the line at all. */
  lemma NoCloseAfterFirst(t: string, d: string)
    requires t != [] && !StartsWith(t, d)
    requires forall k :: 0 <= k <= |t[1..]| && NoLineTerminator(t[1..][..k]) ==> !StartsWith(t[1..][k..], d)
    ensures forall k :: 0 <= k <= |t| && NoLineTerminator(t[..k]) ==> !StartsWith(t[k..], d)
  {
    forall k | 0 <= k <= |t| && NoLineTerminator(t[..k]) ensures !StartsWith(t[k..], d) {
      if k > 0 {
        assert t[1..][k - 1..] == t[k..];
        assert t[1..][..k - 1] == t[..k][1..];
      }
    }
  }

  /** The first closing delimiter after the first character, at offset `j`
      there, is the first one in the whole text, at offset `j + 1`. */
  lemma CloseAfterFirst(t: string, d: string, j: nat)
    requires t != [] && !StartsWith(t, d) && !IsLineTerminator(t[0])
    requires j + |d| <= |t[1..]| && StartsWith(t[1..][j..], d) && NoLineTerminator(t[1..][..j])
    requires forall k :: 0 <= k < j ==> !StartsWith(t[1..][k..], d)
    ensures j + 1 + |d| <= |t| && StartsWith(t[j + 1..], d) && NoLineTerminator(t[..j + 1])
    ensures forall k :: 0 <= k < j + 1 ==> !StartsWith(t[k..], d)
  {
    assert t[1..][j..] == t[j + 1..];
    assert t[..j + 1] == [t[0]] + t[1..][..j];
    forall k | 0 <= k < j + 1 ensures !StartsWith(t[k..], d) {
      if k > 0 { assert t[1..][k - 1..] == t[k..]; }
    }
  }

  /** One replacement `s.replace(/D(.*?)D/g, open + '$1' + close)` for the
      delimiter `d`: at each position, a delimiter with a closing delimiter
      later on the same line is rewritten; otherwise one character is kept
      and the scan moves on. */
  function ReplaceDelimited(s: string, d: string, open: string, close: string): (r: string)
    requires d != []
    ensures d[0] !in s ==> r == s
    ensures |open| + |close| >= 2 * |d| ==> |r| >= |s|
    decreases |s|
  {
    if s == [] then []
    else if StartsWith(s, d) && FindClose(s[|d|..], d).Some? then
      var k := FindClose(s[|d|..], d).value;
      var inner := s[|d|..][..k];
      var after := s[|d|..][k + |d|..];
      assert |s| == 2 * |d| + |inner| + |after|;
      open + inner + close + ReplaceDelimited(after, d, open, close)
    else
      assert d[0] !in s ==> d[0] !in s[1..];
      [s[0]] + ReplaceDelimited(s[1..], d, open, close)
  }

  /** The numbering pattern `\d+\.|\([a-z]\)|\([0-9]+\)` as a property of a
      whole string. */
  predicate IsNumberToken(t: string) {
    || (|t| >= 2 && t[|t| - 1] == '.' && forall k :: 0 <= k < |t| - 1 ==> IsDigit(t[k]))
    || (|t| == 3 && t[0] == '(' && IsLowerLetter(t[1]) && t[2] == ')')
    || (|t| >= 3 && t[0] == '(' && t[|t| - 1] == ')' && forall k :: 1 <= k < |t| - 1 ==> IsDigit(t[k]))
  }

  /** The length of the numbering match at the start of `s`, 0 when there is
      none. `TokenLenIsUnique` shows it is the only prefix of `s` that is a
      number token. */
  function TokenLen(s: string): (r: nat)
    ensures r <= |s|
    ensures r > 0 ==> IsNumberToken(s[..r])
  {
    var n := DigitRun(s);
    var r :=
      if n > 0 && n < |s| && s[n] == '.' then n + 1
      else if |s| >= 3 && s[0] == '(' && IsLowerLetter(s[1]) && s[2] == ')' then 3
      else if |s| >= 1 && s[0] == '(' && DigitRun(s[1..]) > 0 && 1 + DigitRun(s[1..]) < |s|
              && s[1 + DigitRun(s[1..])] == ')' then DigitRun(s[1..]) + 2
      else 0;
    assert r > 0 ==> IsNumberToken(s[..r]) by {
      if r > 0 {
        assert forall k :: 0 <= k < r ==> s[..r][k] == s[k];
        assert forall k :: 1 <= k < r - 1 ==> s[k] == s[1..][k - 1];
      }
    }
    r
  }

  /** Every prefix of `s` that is a number token is the one `TokenLen` finds. */
  lemma TokenLenIsUnique(s: string, j: nat)
    requires 0 < j <= |s| && IsNumberToken(s[..j])
    ensures TokenLen(s) == j
  {
    TokenPrefixShape(s, j);
  }

  /** What a token prefix of `s` looks like in terms of digit runs. */
  lemma TokenPrefixShape(s: string, j: nat)
    requires 0 < j <= |s| && IsNumberToken(s[..j])
    ensures || (IsDigit(s[0]) && DigitRun(s) == j - 1 && s[j - 1] == '.')
            || (s[0] == '(' && j == 3 && IsLowerLetter(s[1]) && s[2] == ')')
            || (s[0] == '(' && j >= 3 && DigitRun(s[1..]) == j - 2 && s[j - 1] == ')')
  {
    var t := s[..j];
    assert forall k :: 0 <= k < j ==> t[k] == s[k];
    if |t| >= 3 && t[0] == '(' && t[|t| - 1] == ')' && forall k :: 1 <= k < |t| - 1 ==> IsDigit(t[k]) {
      assert forall k :: 0 <= k < j - 2 ==> s[1..][k] == s[k + 1];
    }
  }

  /** `s.replace(/(\d+\.|\([a-z]\)|\([0-9]+\))/g, '<strong>$1</strong>')`. */
  function Numbering(s: string): (r: string)
    ensures |r| >= |s|
    decreases |s|
  {
    if s == [] then []
    else
      var n := TokenLen(s);
      if n > 0 then StrongOpen + s[..n] + StrongClose + Numbering(s[n..])
      else [s[0]] + Numbering(s[1..])
  }

  /** No position of `s` starts a number token. */
  predicate NoToken(s: string) {
    forall i :: 0 <= i < |s| ==> TokenLen(s[i..]) == 0
  }

  /** The numbering pass leaves a text unchanged exactly when the text holds
      no number token. */
  lemma {:induction false} NumberingFixedPoints(s: string)
    ensures Numbering(s) == s <==> NoToken(s)
    decreases |s|
  {
    if s != [] {
      if TokenLen(s) > 0 {
        TokenAtStart(s);
      } else {
        NoTokenAtStart(s);
        NumberingFixedPoints(s[1..]);
      }
    }
  }

  /** A token at the start of `s` is a token of `s`, and numbering it makes
      the text longer. */
  lemma TokenAtStart(s: string)
    requires TokenLen(s) > 0
    ensures !NoToken(s) && Numbering(s) != s
  {
    assert TokenLen(s[0..]) > 0 by { assert s[0..] == s; }
    assert |Numbering(s)| > |s|;
  }

  /** Without a token at its start, `s` keeps its first character and the
      rest decides both sides of `NumberingFixedPoints`. */
  lemma NoTokenAtStart(s: string)
    requires s != [] && TokenLen(s) == 0
    ensures Numbering(s) == s <==> Numbering(s[1..]) == s[1..]
    ensures NoToken(s) <==> NoToken(s[1..])
  {
    assert Numbering(s) == [s[0]] + Numbering(s[1..]);
    assert s == [s[0]] + s[1..];
    assert forall i :: 1 <= i < |s| ==> s[1..][i - 1..] == s[i..];
    assert s[0..] == s;
  }

  /** The numbering pass only adds the two strong tags, which hold no
      delimiter and no line terminator. */
  lemma {:induction false} NumberingKeepsPlain(s: string)
    requires Plain(s)
    ensures Plain(Numbering(s))
    decreases |s|
  {
    if s != [] {
      var n := TokenLen(s);
      StrongTagsArePlain();
      if n > 0 {
        NumberingKeepsPlain(s[n..]);
        PlainConcat(StrongOpen, s[..n]);
        PlainConcat(StrongOpen + s[..n], StrongClose);
        PlainConcat(StrongOpen + s[..n] + StrongClose, Numbering(s[n..]));
      } else {
        NumberingKeepsPlain(s[1..]);
        PlainConcat([s[0]], Numbering(s[1..]));
      }
    }
  }

  lemma StrongTagsArePlain()
    ensures Plain(StrongOpen) && Plain(StrongClose)
  {
  }

  lemma PlainConcat(a: string, b: string)
    requires Plain(a) && Plain(b)
    ensures Plain(a + b)
  {
    forall k | 0 <= k < |a + b| ensures (a + b)[k] != '*' && (a + b)[k] != '`' && !IsLineTerminator((a + b)[k]) {
      if k >= |a| { assert (a + b)[k] == b[k - |a|]; }
    }
  }

  /** A character that can end no token (anything but `.` and `)`) added at
      the end of a text does not change where the tokens are. */
  lemma {:induction false} NumberingAppendChar(s: string, c: char)
    requires c != '.' && c != ')'
    ensures Numbering(s + [c]) == Numbering(s) + [c]
    decreases |s|
  {
    var t := s + [c];
    if s == [] {
      assert TokenLen(t) == 0;
      assert t[1..] == [];
    } else {
      TokenLenAppendChar(s, c);
      var n := TokenLen(s);
      if n > 0 {
        calc {
          Numbering(t);
          { assert t[..n] == s[..n]; assert t[n..] == s[n..] + [c]; }
          StrongOpen + s[..n] + StrongClose + Numbering(s[n..] + [c]);
          { NumberingAppendChar(s[n..], c); }
          StrongOpen + s[..n] + StrongClose + (Numbering(s[n..]) + [c]);
          Numbering(s) + [c];
        }
      } else {
        calc {
          Numbering(t);
          { assert t[1..] == s[1..] + [c]; }
          [s[0]] + Numbering(s[1..] + [c]);
          { NumberingAppendChar(s[1..], c); }
          [s[0]] + (Numbering(s[1..]) + [c]);
          Numbering(s) + [c];
        }
      }
    }
  }

  lemma TokenLenAppendChar(s: string, c: char)
    requires c != '.' && c != ')'
    ensures TokenLen(s + [c]) == TokenLen(s)
  {
    var t := s + [c];
    var n := TokenLen(t);
    var m := TokenLen(s);
    if n > 0 {
      assert !IsNumberToken(t[..|t|]) by { assert t[..|t|][|t| - 1] == c; }
      assert t[..n] == s[..n];
      TokenLenIsUnique(s, n);
    } else if m > 0 {
      assert t[..m] == s[..m];
      TokenLenIsUnique(t, m);
    }
  }

  /** A character that starts no token, put in front of a text, is kept and
      the text is numbered as before. */
  lemma NumberingPrependChar(c: char, s: string)
    requires !IsDigit(c) && c != '('
    ensures Numbering([c] + s) == [c] + Numbering(s)
  {
    var t := [c] + s;
    assert DigitRun(t) == 0;
    assert TokenLen(t) == 0;
    assert t[1..] == s;
  }

  /** `d + x + d + rest` with `x` free of the delimiter's first character
      and of line terminators: the first pair of delimiters encloses `x`. */
  lemma {:induction false} FindCloseAfterPlain(x: string, d: string, rest: string)
    requires d != [] && d[0] !in x && NoLineTerminator(x)
    ensures FindClose(x + d + rest, d) == Some(|x|)
    decreases |x|
  {
    var t := x + d + rest;
    assert t[|x|..] == d + rest;
    assert t[|x|..][..|d|] == d;
    if x != [] {
      assert t[0] == x[0];
      assert !StartsWith(t, d) by { assert t[..|d|][0] == x[0]; }
      assert t[1..] == x[1..] + d + rest;
      FindCloseAfterPlain(x[1..], d, rest);
    } else {
      assert t[..|d|] == d;
    }
  }

  lemma DelimitedRewrite(x: string, d: string, open: string, close: string, rest: string)
    requires d != [] && d[0] !in x && NoLineTerminator(x)
    ensures ReplaceDelimited(d + x + d + rest, d, open, close)
         == open + x + close + ReplaceDelimited(rest, d, open, close)
  {
    var s := d + x + d + rest;
    assert s[..|d|] == d;
    assert s[|d|..] == x + d + rest;
    FindCloseAfterPlain(x, d, rest);
    assert (x + d + rest)[..|x|] == x;
    assert (x + d + rest)[|x| + |d|..] == rest;
  }

  /** The three delimiter passes of `formatResponse`, in their order. */
  function MarkupPasses(text: string): string {
    ReplaceDelimited(ReplaceDelimited(ReplaceDelimited(text, "**", StrongOpen, StrongClose),
                                      "*", EmOpen, EmClose),
                     "`", CodeOpen, CodeClose)
  }

  /** `formatResponse`: bold, italic, code, then numbering. The numbering
      pass also runs over the markup the earlier passes inserted. Every pass
      only inserts markup around what it matched, so nothing gets shorter,
      and a text none of the four patterns matches is shown as it is. */
  function FormatResponse(text: string): (r: string)
    ensures |r| >= |text|
    ensures '*' !in text && '`' !in text && NoToken(text) ==> r == text
  {
    assert "*"[0] == '*' && "**"[0] == '*' && "`"[0] == '`';
    NumberingFixedPoints(text);
    Numbering(MarkupPasses(text))
  }

  /** `formatResponse` with the numbering pass moved first, so that it sees
      only the message text and never the inserted markup. */
  function FormatNumberingFirst(text: string): string {
    MarkupPasses(Numbering(text))
  }

  /** Text with no delimiter characters and no line terminators. */
  predicate Plain(x: string) {
    forall k :: 0 <= k < |x| ==> x[k] != '*' && x[k] != '`' && !IsLineTerminator(x[k])
  }

  /** The delimiter passes turn a code span around plain text into one code
      element and leave nothing else. */
  lemma {:induction false} CodePassOnPlain(x: string)
    requires Plain(x)
    ensures MarkupPasses("`" + x + "`") == CodeOpen + x + CodeClose
  {
    var s := "`" + x + "`";
    BackticksAroundPlain(x);
    assert "*"[0] == '*' && "**"[0] == '*';
    assert ReplaceDelimited(s, "**", StrongOpen, StrongClose) == s;
    assert ReplaceDelimited(s, "*", EmOpen, EmClose) == s;
    DelimitedRewrite(x, "`", CodeOpen, CodeClose, []);
    assert s == "`" + x + "`" + [];
  }

  lemma BackticksAroundPlain(x: string)
    requires Plain(x)
    ensures '*' !in "`" + x + "`"
    ensures NoLineTerminator(x) && '`' !in x
  {
    var s := "`" + x + "`";
    forall k | 0 <= k < |s| ensures s[k] != '*' {
      if 0 < k < |s| - 1 { assert s[k] == x[k - 1]; }
    }
  }

  /** The code tag holds a number token: `0.` in its `py-0.5` class. */
  lemma {:induction false} CodeTagHasToken(x: string)
    ensures !NoToken(CodeOpen + x + CodeClose)
  {
    var coded := CodeOpen + x + CodeClose;
    var tail := coded[33..];
    assert tail[0] == '0' && tail[1] == '.';
    assert tail[..2] == "0.";
    assert IsNumberToken(tail[..2]);
    TokenLenIsUnique(tail, 2);
  }

  /** As written, the class attribute of every code span is altered: the
      numbering pass finds `0.` in `py-0.5` inside the inserted tag and
      wraps it in strong tags. The tags land inside the quoted attribute
      value, so the other four classes survive and only `py-0.5` is
      broken. */
  lemma CodeClassIsRewritten(x: string)
    requires Plain(x)
    ensures FormatResponse("`" + x + "`") != CodeOpen + x + CodeClose
  {
    var coded := CodeOpen + x + CodeClose;
    CodePassOnPlain(x);
    CodeTagHasToken(x);
    NumberingFixedPoints(coded);
  }

  /** Corrected, a code span keeps its tag intact and only the text inside
      it is numbered; a span without numbering is exactly one code element. */
  lemma CodeSpanKeepsClass(x: string)
    requires Plain(x)
    ensures FormatNumberingFirst("`" + x + "`") == CodeOpen + Numbering(x) + CodeClose
    ensures NoToken(x) ==> FormatNumberingFirst("`" + x + "`") == CodeOpen + x + CodeClose
  {
    NumberingInBackticks(x);
    NumberingKeepsPlain(x);
    CodePassOnPlain(Numbering(x));
    NumberingFixedPoints(x);
  }

  /** A character that neither starts nor ends a token, put on both sides
      of a text, is kept there, and the text is numbered as before. */
  lemma NumberingBetween(c: char, x: string)
    requires !IsDigit(c) && c != '(' && c != '.' && c != ')'
    ensures Numbering([c] + x + [c]) == [c] + Numbering(x) + [c]
  {
    var y := x + [c];
    calc {
      Numbering([c] + x + [c]);
      { assert [c] + x + [c] == [c] + y; }
      Numbering([c] + y);
      { NumberingPrependChar(c, y); }
      [c] + Numbering(y);
      { NumberingAppendChar(x, c); }
      [c] + (Numbering(x) + [c]);
      [c] + Numbering(x) + [c];
    }
  }

  /** Backticks around a text are kept, and the text is numbered as before. */
  lemma NumberingInBackticks(x: string)
    ensures Numbering("`" + x + "`") == "`" + Numbering(x) + "`"
  {
    NumberingBetween('`', x);
  }

  /** Double asterisks are read as bold before single ones are read as
      italic: `**x**` becomes one strong element, not nested emphasis, and
      only the numbering pass runs over it afterwards. */
  lemma BoldBeforeItalic(x: string)
    requires Plain(x)
    ensures MarkupPasses("**" + x + "**") == StrongOpen + x + StrongClose
    ensures FormatResponse("**" + x + "**") == Numbering(StrongOpen + x + StrongClose)
  {
    var b := StrongOpen + x + StrongClose;
    assert "**"[0] !in x && NoLineTerminator(x);
    DelimitedRewrite(x, "**", StrongOpen, StrongClose, []);
    assert "**" + x + "**" == "**" + x + "**" + [];
    StrongTagsArePlain();
    PlainConcat(StrongOpen, x);
    PlainConcat(StrongOpen + x, StrongClose);
    assert "*"[0] !in b && "`"[0] !in b;
  }

  /** What the message body shows. */
  datatype Rendered = Spinner | Body(html: string, copyButton: bool)

  /** A pending entry shows the spinner; otherwise a user's text is inserted
      verbatim, an assistant's text goes through `formatResponse`, and only
      assistant entries carry the copy button. */
  function Render(m: Message): (r: Rendered)
    ensures r.Spinner? <==> m.isLoading
    ensures r.Body? && m.role == User ==> r.html == m.content
    ensures r.Body? && m.role == Assistant ==> r.html == FormatResponse(m.content)
    ensures r.Body? ==> (r.copyButton <==> m.role == Assistant)
  {
    if m.isLoading then Spinner
    else
      var html := if m.role == Assistant then FormatResponse(m.content) else m.content;
      Body(html, m.role == Assistant && !m.isLoading)
  }

  /** Without delimiters and number tokens an answer is shown as it is, in
      either order of the passes. */
  lemma PlainAnswerUnchanged(text: string)
    requires '*' !in text && '`' !in text && NoToken(text)
    ensures FormatResponse(text) == text
    ensures FormatNumberingFirst(text) == text
  {
    NumberingFixedPoints(text);
    assert "*"[0] == '*' && "**"[0] == '*' && "`"[0] == '`';
  }

  /** The answer's placeholder shows the spinner, and once answered the last
      entry shows the formatted answer with the copy button. */
  lemma AnsweredEntryRenders(s: Session, answer: string)
    ensures Render(Placeholder).Spinner?
    ensures var c := AskAnswered(s, Success(answer)).conversation;
      Render(c[|c| - 1]) == Body(FormatResponse(answer), true)
  {
  }
}
