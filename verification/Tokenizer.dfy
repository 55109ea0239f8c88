/** The style sheet tokenizer: it loses no character, and every scan of a token moves on. */
module Tokenizer {
  import opened Options

  /** A text as character codes. */
  type Text = seq<nat>

  datatype Kind = Space | Sign(code: nat) | Open | Brackets | Str | AtWord | Word | Comment

  /** A token with its text, and where it starts and ends when it says so. */
  datatype Token = Token(kind: Kind, text: Text, start: Option<nat>, end: Option<nat>)

  datatype Scanned = Found(token: Token) | End | Unclosed

  const BACKSLASH: nat := 92
  const SLASH: nat := 47
  const STAR: nat := 42

  /** The code at an index, or -1 outside the text. */
  function At(css: Text, i: int): int {
    if 0 <= i < |css| then css[i] else -1
  }

  predicate White(c: int) {
    c == 32 || c == 10 || c == 9 || c == 13 || c == 12
  }

  predicate IsSign(c: int) {
    c == 91 || c == 93 || c == 123 || c == 125 || c == 58 || c == 59 || c == 41
  }

  predicate Quote(c: int) {
    c == 39 || c == 34
  }

  predicate Hex(c: int) {
    48 <= c <= 57 || 97 <= c <= 102 || 65 <= c <= 70
  }

  /** What ends an at-word: white space or one of " # ' ( ) / ; [ \ ] { }. */
  predicate EndsAtWord(c: int) {
    White(c) || c == 34 || c == 35 || c == 39 || c == 40 || c == 41 || c == 47 || c == 59 || c == 91 || c == 92 || c == 93 || c == 123 || c == 125
  }

  /** What ends a word at i: white space, one of ! " # ' ( ) : ; @ [ \ ] { }, or the start of a comment. */
  predicate EndsWord(css: Text, i: nat) {
    var c := At(css, i);
    White(c) || c == 33 || c == 34 || c == 35 || c == 39 || c == 40 || c == 41 || c == 58 || c == 59 || c == 64 || c == 91 || c == 92
    || c == 93 || c == 123 || c == 125 || (c == SLASH && At(css, i + 1) == STAR)
  }

  predicate Among(c: int, letters: string) {
    exists i | 0 <= i < |letters| :: letters[i] as int == c
  }

  lemma NamedLetters()
    ensures BACKSLASH == '\\' as nat && SLASH == '/' as nat && STAR == '*' as nat
  {
  }

  /** The classes of characters, written out; a form feed counts as white space too. */
  lemma WhiteLetters(c: int)
    ensures White(c) <==> Among(c, " \n\t\r") || c == 0xC
  {
    var s := " \n\t\r";
    assert s[0] as int == 32 && s[1] as int == 10 && s[2] as int == 9 && s[3] as int == 13;
  }

  lemma SignLetters(c: int)
    ensures IsSign(c) <==> Among(c, "[]{}:;)")
  {
    var s := "[]{}:;)";
    assert s[0] as int == 91 && s[1] as int == 93 && s[2] as int == 123 && s[3] as int == 125 && s[4] as int == 58;
    assert s[5] as int == 59 && s[6] as int == 41;
  }

  lemma QuoteLetters(c: int)
    ensures Quote(c) <==> Among(c, "'\"")
  {
    var s := "'\"";
    assert s[0] as int == 39 && s[1] as int == 34;
  }

  lemma HexLetters(c: int)
    ensures Hex(c) <==> 'a' as int <= c <= 'f' as int || 'A' as int <= c <= 'F' as int || '0' as int <= c <= '9' as int
  {
  }

  lemma AtWordLetters(c: int)
    ensures EndsAtWord(c) <==> White(c) || Among(c, "\"#'()/;[\\]{}")
  {
    hide White;
    var s := "\"#'()/;[\\]{}";
    assert s[0] as int == 34 && s[1] as int == 35 && s[2] as int == 39 && s[3] as int == 40 && s[4] as int == 41;
    assert s[5] as int == 47 && s[6] as int == 59 && s[7] as int == 91 && s[8] as int == 92 && s[9] as int == 93;
    assert s[10] as int == 123 && s[11] as int == 125;
  }

  lemma WordLetters(css: Text, i: nat)
    ensures EndsWord(css, i) <==> White(At(css, i)) || Among(At(css, i), "!\"#'():;@[\\]{}") || (At(css, i) == SLASH && At(css, i + 1) == STAR)
  {
    hide White, At;
    var s := "!\"#'():;@[\\]{}";
    assert s[0] as int == 33 && s[1] as int == 34 && s[2] as int == 35 && s[3] as int == 39 && s[4] as int == 40;
    assert s[5] as int == 41 && s[6] as int == 58 && s[7] as int == 59 && s[8] as int == 64 && s[9] as int == 91;
    assert s[10] as int == 92 && s[11] as int == 93 && s[12] as int == 123 && s[13] as int == 125;
  }

  // ---------- escapes ----------

  /** Whether an odd number of backslashes stands before i. */
  predicate Escaped(css: Text, i: nat) {
    i > 0 && At(css, i - 1) == BACKSLASH && !Escaped(css, i - 1)
  }

  /** The first place from i on where c stands unescaped. */
  function Unescaped(css: Text, c: nat, i: nat): (r: Option<nat>)
    ensures r.Some? ==> i <= r.value < |css| && css[r.value] == c && !Escaped(css, r.value)
    ensures r.Some? ==> forall k | i <= k < r.value :: css[k] != c || Escaped(css, k)
    ensures r.None? ==> forall k | i <= k < |css| :: css[k] != c || Escaped(css, k)
    decreases |css| - i
  {
    if i >= |css| then None
    else if css[i] == c && !Escaped(css, i) then Some(i)
    else Unescaped(css, c, i + 1)
  }

  lemma {:induction false} UnescapedFrom(css: Text, c: nat, i: nat, j: nat)
    requires i <= j && forall k | i <= k < j && k < |css| :: css[k] != c || Escaped(css, k)
    ensures Unescaped(css, c, i) == Unescaped(css, c, j)
    decreases j - i
  {
    if i < j {
      UnescapedFrom(css, c, i + 1, j);
    }
  }

  // ---------- what a token is ----------

  /** The token kind that may span m to e, both included; e may lie past the end where unclosed errors are ignored. */
  ghost predicate Proper(css: Text, ignoring: bool, url: bool, kind: Kind, m: nat, e: nat)
    requires m < |css|
  {
    match kind
    case Space => (forall k | m <= k <= e :: White(At(css, k))) && !White(At(css, e + 1))
    case Sign(c) => e == m && css[m] == c && IsSign(c)
    case Open =>
      && e == m && css[m] == 40 && !UrlForm(css, m, url)
      && ((forall k | m < k < |css| :: css[k] != 41) || exists s | m < s < |css| :: FirstBracket(css, m, s) && Awkward(css[m..s + 1]))
    case Brackets =>
      css[m] == 40
      && if UrlForm(css, m, url) then
           Unescaped(css, 41, m + 1) == Some(e) || (ignoring && Unescaped(css, 41, m + 1) == None && e == m)
         else
           m < e < |css| && FirstBracket(css, m, e) && !Awkward(css[m..e + 1])
    case Str =>
      Quote(css[m]) && (Unescaped(css, css[m], m + 1) == Some(e) || (ignoring && Unescaped(css, css[m], m + 1) == None && e == m + 1))
    case AtWord => css[m] == 64 && (forall k | m < k <= e :: k < |css| && !EndsAtWord(At(css, k))) && (e + 1 == |css| || EndsAtWord(At(css, e + 1)))
    case Word =>
      if css[m] == BACKSLASH then EscapeSpans(css, m, e)
      else OpensWord(css, m) && ((forall k | m < k <= e :: k < |css| && !EndsWord(css, k)) && (e + 1 == |css| || EndsWord(css, e + 1)))
    case Comment =>
      css[m] == SLASH && At(css, m + 1) == STAR
      && ((CommentEnds(css, e) && m + 3 <= e && forall k | m + 3 <= k < e :: !CommentEnds(css, k))
          || (ignoring && e == |css| && forall k | m + 3 <= k :: !CommentEnds(css, k)))
  }

  /** A bracket behind the word url that no quote or white space follows. */
  predicate UrlForm(css: Text, m: nat, url: bool) {
    url && !Quote(At(css, m + 1)) && !White(At(css, m + 1))
  }

  /** Nothing else than a word begins here. */
  predicate OpensWord(css: Text, m: nat)
    requires m < |css|
  {
    && !White(css[m]) && !IsSign(css[m]) && css[m] != 40 && !Quote(css[m]) && css[m] != 64 && css[m] != BACKSLASH
    && !(css[m] == SLASH && At(css, m + 1) == STAR)
  }

  /** The backslashes from m to s, and no more. */
  predicate BackslashesTo(css: Text, m: nat, s: nat) {
    (forall k | m <= k <= s :: At(css, k) == BACKSLASH) && At(css, s + 1) != BACKSLASH
  }

  /** The hexadecimal digits behind s up to h, at least one and no more. */
  predicate DigitsTo(css: Text, s: nat, h: nat) {
    s < h && (forall k | s < k <= h :: Hex(At(css, k))) && !Hex(At(css, h + 1))
  }

  /** How far an escape reaches whose backslashes are those from m to s: over an odd number of them it takes the
      character behind, unless that is white space or a slash, and when that is a hexadecimal digit all such digits and
      one space. */
  ghost predicate EscapeReach(css: Text, m: nat, s: nat, e: nat)
    requires m <= s
  {
    var c := At(css, s + 1);
    if (s - m) % 2 == 1 || c == SLASH || White(c) then e == s
    else if !Hex(c) then e == s + 1
    else exists h | s < h <= e :: DigitsTo(css, s, h) && e == if At(css, h + 1) == 32 then h + 1 else h
  }

  ghost predicate EscapeSpans(css: Text, m: nat, e: nat) {
    exists s | m <= s <= e :: BackslashesTo(css, m, s) && EscapeReach(css, m, s, e)
  }

  predicate FirstBracket(css: Text, m: nat, e: nat) {
    e < |css| && css[e] == 41 && forall k | m < k < e :: css[k] != 41
  }

  /** Whether a bracketed text has a line break, a quote, an open bracket, a slash or a backslash after any character
      that does not end a line. */
  predicate Awkward(n: Text) {
    exists j | 0 <= j < |n| - 1 ::
      n[j] != 10 && n[j] != 13 && n[j] != 0x2028 && n[j] != 0x2029
      && (n[j + 1] == 13 || n[j + 1] == 10 || n[j + 1] == 34 || n[j + 1] == 39 || n[j + 1] == 40 || n[j + 1] == 47 || n[j + 1] == 92)
  }

  predicate CommentEnds(css: Text, e: nat) {
    e >= 1 && At(css, e) == SLASH && At(css, e - 1) == STAR
  }

  // ---------- the token at a place is determined ----------

  lemma KindDetermined(css: Text, ignoring: bool, url: bool, m: nat, a: Kind, d: nat, b: Kind, e: nat)
    requires m < |css| && m <= d && m <= e && Proper(css, ignoring, url, a, m, d) && Proper(css, ignoring, url, b, m, e)
    ensures a == b || (css[m] == 40 && (a == Open || a == Brackets) && (b == Open || b == Brackets))
  {
    hide Unescaped, EscapeSpans, EndsWord, EndsAtWord, FirstBracket, Awkward, CommentEnds, UrlForm;
    if a == Space {
      assert White(At(css, m));
    }
    if b == Space {
      assert White(At(css, m));
    }
  }

  lemma BracketDetermined(css: Text, ignoring: bool, url: bool, m: nat, a: Kind, d: nat, b: Kind, e: nat)
    requires m < |css| && (a == Open || a == Brackets) && (b == Open || b == Brackets)
    requires Proper(css, ignoring, url, a, m, d) && Proper(css, ignoring, url, b, m, e)
    ensures a == b && d == e
  {
    hide Unescaped, Awkward, UrlForm;
  }

  lemma EscapeDetermined(css: Text, m: nat, d: nat, e: nat)
    requires EscapeSpans(css, m, d) && EscapeSpans(css, m, e)
    ensures d == e
  {
    hide Hex, White, DigitsTo, BackslashesTo;
    var s :| m <= s <= d && BackslashesTo(css, m, s) && EscapeReach(css, m, s, d);
    var t :| m <= t <= e && BackslashesTo(css, m, t) && EscapeReach(css, m, t, e);
    RunDetermined(css, m, s, t);
    if d != e {
      var g :| s < g <= d && DigitsTo(css, s, g) && d == if At(css, g + 1) == 32 then g + 1 else g;
      var h :| s < h <= e && DigitsTo(css, s, h) && e == if At(css, h + 1) == 32 then h + 1 else h;
      DigitsDetermined(css, s, g, h);
    }
  }

  lemma RunDetermined(css: Text, m: nat, s: nat, t: nat)
    requires m <= s && m <= t && BackslashesTo(css, m, s) && BackslashesTo(css, m, t)
    ensures s == t
  {
    hide At;
  }

  lemma DigitsDetermined(css: Text, s: nat, g: nat, h: nat)
    requires DigitsTo(css, s, g) && DigitsTo(css, s, h)
    ensures g == h
  {
    hide At, Hex;
  }

  lemma EndDetermined(css: Text, ignoring: bool, url: bool, m: nat, kind: Kind, d: nat, e: nat)
    requires m < |css| && m <= d && m <= e && kind != Open && kind != Brackets
    requires Proper(css, ignoring, url, kind, m, d) && Proper(css, ignoring, url, kind, m, e)
    ensures d == e
  {
    hide Unescaped, EscapeSpans, EndsWord, EndsAtWord, White, Quote, CommentEnds, OpensWord;
    if kind == Word && css[m] == BACKSLASH {
      EscapeDetermined(css, m, d, e);
    } else if kind == Comment {
      CommentDetermined(css, ignoring, url, m, d, e);
    } else {
      NotShorter(css, ignoring, url, m, kind, d, e);
      NotShorter(css, ignoring, url, m, kind, e, d);
    }
  }

  /** A token that runs as far as it can does not end before another one. */
  lemma NotShorter(css: Text, ignoring: bool, url: bool, m: nat, kind: Kind, d: nat, e: nat)
    requires m < |css| && m <= d && m <= e && kind != Open && kind != Brackets && kind != Comment
    requires kind == Word ==> css[m] != BACKSLASH
    requires Proper(css, ignoring, url, kind, m, d) && Proper(css, ignoring, url, kind, m, e)
    ensures d >= e
  {
    hide Unescaped, EndsWord, EndsAtWord, White, Quote, OpensWord;
    var k: nat := d + 1;
    assert kind == Space && d < e ==> White(At(css, k));
    assert kind == AtWord && d < e ==> !EndsAtWord(At(css, k)) && k < |css|;
    assert kind == Word && d < e ==> !EndsWord(css, k) && k < |css|;
  }

  lemma CommentDetermined(css: Text, ignoring: bool, url: bool, m: nat, d: nat, e: nat)
    requires m < |css| && Proper(css, ignoring, url, Comment, m, d) && Proper(css, ignoring, url, Comment, m, e)
    ensures d == e
  {
    assert forall k | k >= |css| :: !CommentEnds(css, k);
    hide CommentEnds;
  }

  /** Behind the same words one token, and no other, stands at a place. */
  lemma TokenDetermined(css: Text, ignoring: bool, url: bool, m: nat, a: Kind, d: nat, b: Kind, e: nat)
    requires m < |css| && m <= d && m <= e && Proper(css, ignoring, url, a, m, d) && Proper(css, ignoring, url, b, m, e)
    ensures a == b && d == e
  {
    hide Proper;
    KindDetermined(css, ignoring, url, m, a, d, b, e);
    if a == Open || a == Brackets {
      BracketDetermined(css, ignoring, url, m, a, d, b, e);
    } else {
      EndDetermined(css, ignoring, url, m, a, d, e);
    }
  }

  /** The texts of tokens, one after the other. */
  function Texts(tokens: seq<Token>): Text {
    if tokens == [] then [] else Texts(tokens[..|tokens| - 1]) + tokens[|tokens| - 1].text
  }

  /** Each token that says where it starts says so rightly. */
  ghost predicate Placed(tokens: seq<Token>) {
    forall i | 0 <= i < |tokens| :: tokens[i].start.Some? ==> tokens[i].start.value == |Texts(tokens[..i])|
  }

  /** What a scan did: read a token, or give up at a character. */
  datatype Event = Read(token: Token) | GaveUp(code: nat)

  function TokensOf(history: seq<Event>): seq<Token> {
    if history == [] then []
    else
      var before, last := TokensOf(history[..|history| - 1]), history[|history| - 1];
      if last.Read? then before + [last.token] else before
  }

  /** The words that wait for a bracket: each word but an escape goes on top, and each open bracket takes the top one,
      also when the scan then gives up. */
  function StackOf(history: seq<Event>): seq<Token> {
    if history == [] then [] else StackWith(StackOf(history[..|history| - 1]), history[|history| - 1])
  }

  function StackWith(before: seq<Token>, e: Event): seq<Token> {
    match e
    case Read(t) =>
      if t.kind == Word && (t.text == [] || t.text[0] != BACKSLASH) then before + [t]
      else if t.kind == Open || t.kind == Brackets then Popped(before)
      else before
    case GaveUp(c) => if c == 40 then Popped(before) else before
  }

  function Popped(stack: seq<Token>): seq<Token> {
    if stack == [] then [] else stack[..|stack| - 1]
  }

  /** The word on top is url. */
  predicate AfterUrl(stack: seq<Token>) {
    stack != [] && |stack[|stack| - 1].text| == 3 && forall i | 0 <= i < 3 :: stack[|stack| - 1].text[i] == "url"[i] as nat
  }

  lemma HistoryMore(history: seq<Event>, e: Event)
    ensures TokensOf(history + [e]) == if e.Read? then TokensOf(history) + [e.token] else TokensOf(history)
    ensures StackOf(history + [e]) == StackWith(StackOf(history), e)
  {
    assert (history + [e])[..|history|] == history;
  }

  function Clip(css: Text, m: nat): nat {
    if m <= |css| then m else |css|
  }

  lemma TextsNext(tokens: seq<Token>, t: Token)
    ensures Texts(tokens + [t]) == Texts(tokens) + t.text
    ensures Placed(tokens) && (t.start.Some? ==> t.start.value == |Texts(tokens)|) ==> Placed(tokens + [t])
  {
    assert (tokens + [t])[..|tokens|] == tokens;
    assert forall i | 0 <= i < |tokens| :: (tokens + [t])[..i] == tokens[..i];
  }

  class Tokenizer {
    const css: Text
    const ignoreErrors: bool
    var pos: nat
    /** The words since the last open bracket took one. */
    var words: seq<Token>
    /** Tokens given back, to be returned again. */
    var returned: seq<Token>
    /** All tokens read from the text. */
    ghost var scanned: seq<Token>
    /** And where a scan gave up in between. */
    ghost var history: seq<Event>

    /** The tokens read so far spell the text read so far, and the words waiting are those they leave. */
    ghost predicate Valid()
      reads this
    {
      && Texts(scanned) == css[..Clip(css, pos)] && Placed(scanned)
      && scanned == TokensOf(history) && words == StackOf(history)
    }

    constructor (css: Text, ignoreErrors: bool)
      ensures Valid() && scanned == [] && history == [] && this.css == css && this.ignoreErrors == ignoreErrors
    {
      this.css, this.ignoreErrors := css, ignoreErrors;
      pos, words, returned, scanned, history := 0, [], [], [], [];
    }

    method Back(t: Token)
      modifies this`returned
      ensures returned == old(returned) + [t]
    {
      returned := returned + [t];
    }

    predicate EndOfFile()
      reads this
    {
      |returned| == 0 && pos >= |css|
    }

    /** The first place from i on where c stands, or -1. */
    method IndexOf(c: nat, i: nat) returns (s: int)
      ensures s == -1 || (i <= s < |css| && css[s] == c)
      ensures forall k | i <= k < (if s == -1 then |css| else s) :: css[k] != c
    {
      s := i;
      while s < |css|
        invariant i <= s && forall k | i <= k < s && k < |css| :: css[k] != c
      {
        if css[s] == c {
          return;
        }
        s := s + 1;
      }
      s := -1;
    }

    method IsEscaped(s: nat) returns (l: bool)
      ensures l == Escaped(css, s)
    {
      l := false;
      var a := s;
      while At(css, a - 1) == BACKSLASH
        invariant 0 <= a <= s && Escaped(css, s) == (l != Escaped(css, a))
        decreases a
      {
        a, l := a - 1, !l;
      }
    }

    /** Past escaped ones to the first unescaped c after m. */
    method FindUnescaped(c: nat, m: nat) returns (s: int)
      ensures s == match Unescaped(css, c, m + 1) case Some(e) => e as int case None => -1
    {
      s := m;
      var l := true;
      while l
        invariant m <= s && (l ==> Unescaped(css, c, m + 1) == Unescaped(css, c, s + 1))
        invariant !l ==> Unescaped(css, c, m + 1) == Some(s)
        decreases |css| - s, l
      {
        var next := IndexOf(c, s + 1);
        if next == -1 {
          UnescapedFrom(css, c, s + 1, |css| + s + 1);
          return -1;
        }
        UnescapedFrom(css, c, s + 1, next);
        s := next;
        l := IsEscaped(s);
        if l {
          UnescapedFrom(css, c, s, s + 1);
        }
      }
    }

    /** Why a scan at m may give up. */
    ghost predicate ReallyUnclosed(m: nat, url: bool)
      requires m < |css|
    {
      || (Quote(css[m]) && Unescaped(css, css[m], m + 1) == None)
      || (css[m] == 40 && UrlForm(css, m, url) && Unescaped(css, 41, m + 1) == None)
      || (css[m] == SLASH && At(css, m + 1) == STAR && forall k | m + 3 <= k :: !CommentEnds(css, k))
    }

    method SpaceEnd(m: nat, ignoring: bool, ghost url: bool) returns (e: nat)
      requires m < |css| && White(css[m])
      ensures m <= e && Proper(css, ignoring, url, Space, m, e) && e < |css|
    {
      var s := m + 1;
      while White(At(css, s))
        invariant m < s <= |css| && forall k | m <= k < s :: White(At(css, k))
        decreases |css| - s
      {
        s := s + 1;
      }
      e := s - 1;
    }

    method AtWordEnd(m: nat, ignoring: bool, ghost url: bool) returns (e: nat)
      requires m < |css| && css[m] == 64
      ensures m <= e < |css| && Proper(css, ignoring, url, AtWord, m, e)
    {
      var i := m + 1;
      while i < |css| && !EndsAtWord(css[i])
        invariant m < i <= |css| && forall k | m < k < i :: !EndsAtWord(css[k])
      {
        i := i + 1;
      }
      e := i - 1;
    }

    method WordEnd(m: nat, ignoring: bool, ghost url: bool) returns (e: nat)
      requires m < |css| && OpensWord(css, m)
      ensures m <= e < |css| && Proper(css, ignoring, url, Word, m, e)
    {
      var i := m + 1;
      while i < |css| && !EndsWord(css, i)
        invariant m < i <= |css| && forall k | m < k < i :: !EndsWord(css, k)
      {
        i := i + 1;
      }
      e := i - 1;
    }

    /** A backslash and what it escapes. */
    method EscapeEnd(m: nat) returns (e: nat)
      requires m < |css| && css[m] == BACKSLASH
      ensures m <= e <= |css| && EscapeSpans(css, m, e)
    {
      hide Hex, White;
      var s, o := m, true;
      while At(css, s + 1) == BACKSLASH
        invariant m <= s < |css| && (forall k | m <= k <= s :: At(css, k) == BACKSLASH) && (o <==> (s - m) % 2 == 0)
        decreases |css| - s
      {
        s, o := s + 1, !o;
      }
      ghost var last := s;
      assert BackslashesTo(css, m, last);
      var r := At(css, s + 1);
      if o && r != SLASH && !White(r) {
        s := s + 1;
        if Hex(At(css, s)) {
          s := HexEnd(s);
          assert DigitsTo(css, last, s);
          if At(css, s + 1) == 32 {
            s := s + 1;
          }
        }
      }
      e := s;
      assert EscapeReach(css, m, last, e);
    }

    /** The last of the digits from s on. */
    method HexEnd(s: nat) returns (h: nat)
      requires s > 0 && Hex(At(css, s))
      ensures s <= h < |css| && DigitsTo(css, s - 1, h)
    {
      h := s;
      while Hex(At(css, h + 1))
        invariant s <= h < |css| && forall k | s <= k <= h :: Hex(At(css, k))
        decreases |css| - h
      {
        h := h + 1;
      }
    }

    /** The end of the comment at m: -1 when it has none and that is not to be ignored. */
    method CommentEnd(m: nat, ignoring: bool, ghost url: bool) returns (e: int)
      requires m < |css| && css[m] == SLASH && At(css, m + 1) == STAR
      ensures e == -1 ==> !ignoring && ReallyUnclosed(m, url)
      ensures e != -1 ==> m <= e <= |css| && Proper(css, ignoring, url, Comment, m, e)
    {
      e := m + 3;
      while e < |css|
        invariant m + 3 <= e && forall k | m + 3 <= k < e :: !CommentEnds(css, k)
      {
        if css[e - 1] == STAR && css[e] == SLASH {
          return;
        }
        e := e + 1;
      }
      e := if ignoring then |css| else -1;
    }

    /** The end of the string at m: -1 when it is not closed and that is not to be ignored. */
    method StringEnd(m: nat, ignoring: bool, ghost url: bool) returns (e: int)
      requires m < |css| && Quote(css[m])
      ensures e == -1 ==> !ignoring && ReallyUnclosed(m, url)
      ensures e != -1 ==> m <= e <= |css| && Proper(css, ignoring, url, Str, m, e)
    {
      e := FindUnescaped(css[m], m);
      if e == -1 && ignoring {
        e := m + 1;
      }
    }

    /** The bracket token at m. */
    method BracketToken(m: nat, url: bool, ignoring: bool) returns (kind: Kind, e: int)
      requires m < |css| && css[m] == 40
      ensures e == -1 ==> !ignoring && ReallyUnclosed(m, url)
      ensures e != -1 ==> m <= e < |css| && Proper(css, ignoring, url, kind, m, e) && (kind == Open || kind == Brackets)
    {
      var u := At(css, m + 1);
      if url && !Quote(u) && !White(u) {
        kind := Brackets;
        e := FindUnescaped(41, m);
        if e == -1 && ignoring {
          e := m;
        }
      } else {
        e := IndexOf(41, m + 1);
        if e == -1 || Awkward(css[m..e + 1]) {
          assert e != -1 ==> FirstBracket(css, m, e);
          kind, e := Open, m;
        } else {
          kind := Brackets;
        }
      }
    }

    /** Read the token from the position to e, both included, and move on. White space does not say where it stands,
        and a single character not where it ends. */
    method Take(kind: Kind, e: nat) returns (t: Token)
      requires Texts(scanned) == css[..Clip(css, pos)] && Placed(scanned) && pos < |css| && pos <= e <= |css|
      modifies this`pos, this`scanned
      ensures Texts(scanned) == css[..Clip(css, pos)] && Placed(scanned) && pos == e + 1 && scanned == old(scanned) + [t]
      ensures t.kind == kind && t.text == css[old(pos)..Clip(css, pos)]
      ensures t.start == (if kind == Space then None else Some(old(pos)))
      ensures t.end == (if kind == Space || kind.Sign? || kind == Open then None else Some(e))
    {
      hide Texts, Placed;
      var start := if kind == Space then None else Some(pos);
      var end := if kind == Space || kind.Sign? || kind == Open then None else Some(e);
      t := Token(kind, css[pos..Clip(css, e + 1)], start, end);
      TextsNext(scanned, t);
      assert css[..pos] + css[pos..Clip(css, e + 1)] == css[..Clip(css, e + 1)];
      scanned, pos := scanned + [t], e + 1;
    }

    lemma SignProper(m: nat, ignoring: bool, url: bool)
      requires m < |css| && IsSign(css[m])
      ensures Proper(css, ignoring, url, Sign(css[m]), m, m)
    {
    }

    lemma EscapeProper(m: nat, e: nat, ignoring: bool, url: bool)
      requires m < |css| && css[m] == BACKSLASH && EscapeSpans(css, m, e)
      ensures Proper(css, ignoring, url, Word, m, e)
    {
    }

    /** A token read at m: it moves on and is what stands there. */
    ghost predicate TokenAt(t: Token, m: nat, ignoring: bool, url: bool)
      reads this`pos
    {
      && m < |css| && m < pos && Proper(css, ignoring, url, t.kind, m, pos - 1)
      && t.text == css[m..Clip(css, pos)]
      && t.start == (if t.kind == Space then None else Some(m))
      && t.end == (if t.kind == Space || t.kind.Sign? || t.kind == Open then None else Some(pos - 1))
    }

    lemma UrlOnTop(stack: seq<Token>)
      ensures AfterUrl(stack) <==> stack != [] && stack[|stack| - 1].text == [117, 114, 108]
    {
      assert "url"[0] as nat == 117 && "url"[1] as nat == 114 && "url"[2] as nat == 108;
    }

    /** The kind and the end of the token at m, and -1 for what is not closed. */
    method Classify(m: nat, ignoring: bool) returns (kind: Kind, e: int)
      requires m < |css|
      modifies this`words
      ensures words == if css[m] == 40 then Popped(old(words)) else old(words)
      ensures e == -1 ==> !ignoring && ReallyUnclosed(m, AfterUrl(old(words)))
      ensures e != -1 ==> m <= e <= |css| && Proper(css, ignoring, AfterUrl(old(words)), kind, m, e)
      ensures e != -1 ==> (kind == Open || kind == Brackets <==> css[m] == 40)
    {
      hide Proper, ReallyUnclosed, EndsWord, Awkward, EscapeSpans, AfterUrl;
      ghost var url := AfterUrl(words);
      UrlOnTop(words);
      var c := css[m];
      if White(c) {
        kind := Space;
        e := SpaceEnd(m, ignoring, url);
      } else if IsSign(c) {
        SignProper(m, ignoring, url);
        kind, e := Sign(c), m;
      } else if c == 40 {
        var h := if |words| > 0 then words[|words| - 1].text else [];
        words := if |words| > 0 then words[..|words| - 1] else [];
        kind, e := BracketToken(m, h == [117, 114, 108], ignoring);
      } else if Quote(c) {
        kind := Str;
        e := StringEnd(m, ignoring, url);
      } else if c == 64 {
        kind := AtWord;
        e := AtWordEnd(m, ignoring, url);
      } else if c == BACKSLASH {
        kind := Word;
        e := EscapeEnd(m);
        EscapeProper(m, e, ignoring, url);
      } else if c == SLASH && At(css, m + 1) == STAR {
        kind := Comment;
        e := CommentEnd(m, ignoring, url);
      } else {
        kind := Word;
        e := WordEnd(m, ignoring, url);
      }
    }

    /** Take at the position, and what it does to the words. */
    method TakeToken(kind: Kind, e: nat) returns (t: Token)
      requires Texts(scanned) == css[..Clip(css, pos)] && Placed(scanned) && pos < |css| && pos <= e <= |css|
      requires scanned == TokensOf(history)
      requires words == if css[pos] == 40 then Popped(StackOf(history)) else StackOf(history)
      requires (kind == Open || kind == Brackets <==> css[pos] == 40)
      modifies this`pos, this`scanned, this`words, this`history
      ensures Valid() && pos == e + 1 && scanned == old(scanned) + [t] && history == old(history) + [Read(t)]
      ensures t.kind == kind && t.text == css[old(pos)..Clip(css, pos)]
      ensures t.start == (if kind == Space then None else Some(old(pos)))
      ensures t.end == (if kind == Space || kind.Sign? || kind == Open then None else Some(e))
    {
      hide Texts, Placed, StackOf, TokensOf;
      var m := pos;
      t := Take(kind, e);
      HistoryMore(history, Read(t));
      history := history + [Read(t)];
      if kind == Word && css[m] != BACKSLASH {
        words := words + [t];
      }
    }

    /** The next token: one given back, or one read from the text, which moves the position on and is what stands there
        behind the words waiting. An unclosed bracket, string or comment throws unless that is to be ignored. */
    method NextToken(ignoreUnclosed: bool) returns (r: Scanned)
      requires Valid()
      modifies this`pos, this`words, this`returned, this`scanned, this`history
      ensures Valid()
      ensures old(returned) != [] ==> r == Found(old(returned)[|old(returned)| - 1]) && returned == old(returned)[..|old(returned)| - 1]
      ensures old(returned) != [] ==> pos == old(pos) && history == old(history)
      ensures (old(returned) == [] ==> returned == []) && (r == End <==> old(EndOfFile()))
      ensures old(returned) == [] && r.Found? ==>
                && history == old(history) + [Read(r.token)]
                && TokenAt(r.token, old(pos), ignoreErrors || ignoreUnclosed, AfterUrl(StackOf(old(history))))
      ensures r == End ==> pos == old(pos) && history == old(history)
      ensures r == Unclosed ==> pos == old(pos) < |css| && history == old(history) + [GaveUp(css[pos])]
      ensures r == Unclosed ==> !ignoreErrors && !ignoreUnclosed && ReallyUnclosed(pos, AfterUrl(StackOf(old(history))))
    {
      hide Proper, ReallyUnclosed, Texts, Placed, StackOf, TokensOf, AfterUrl;
      if |returned| > 0 {
        r, returned := Found(returned[|returned| - 1]), returned[..|returned| - 1];
        return;
      }
      if pos >= |css| {
        return End;
      }
      var m := pos;
      var kind, e := Classify(m, ignoreErrors || ignoreUnclosed);
      if e == -1 {
        HistoryMore(history, GaveUp(css[m]));
        history := history + [GaveUp(css[m])];
        return Unclosed;
      }
      var t := TakeToken(kind, e);
      r := Found(t);
    }

    /** Read the whole text: without an unclosed error the tokens spell it, each where it says. */
    method ReadAll() returns (tokens: seq<Token>, ok: bool)
      requires Valid() && history == [] && returned == [] && pos == 0
      modifies this`pos, this`words, this`returned, this`scanned, this`history
      ensures Placed(tokens) && Texts(tokens) == css[..Clip(css, pos)]
      ensures ok ==> Texts(tokens) == css
      ensures ok ==> tokens == TokensOf(history)
      ensures !ok ==> !ignoreErrors && pos < |css| && history != [] && ReallyUnclosed(pos, AfterUrl(StackOf(history[..|history| - 1])))
    {
      tokens, ok := [], true;
      while true
        invariant Valid() && tokens == scanned && returned == [] && ok
        decreases |css| - pos
      {
        ghost var before := history;
        var r := NextToken(false);
        match r
        case End =>
          assert css[..Clip(css, pos)] == css;
          break;
        case Unclosed =>
          assert history[..|history| - 1] == before;
          ok := false;
          break;
        case Found(t) =>
          tokens := tokens + [t];
      }
    }
  }
}
