/** Finding the word to complete in a command line, minding quotes and backslashes. */
module Completer {

  predicate Blank(c: char) { c == ' ' || c == '\t' }

  predicate QuoteMark(c: char) { c == '"' || c == '\'' }

  // ---------- the automaton ----------

  /** The open quote, '\0' for none, and whether the previous character was an escaping backslash. */
  datatype Scan = Scan(quote: char, escaped: bool)

  const NO_QUOTE := '\0'
  const PLAIN := Scan(NO_QUOTE, false)

  function Next(st: Scan, c: char): Scan {
    if st.escaped then st.(escaped := false)
    else if c == '\\' then st.(escaped := true)
    else if st.quote != NO_QUOTE then (if c == st.quote then PLAIN else st)
    else if QuoteMark(c) then Scan(c, false)
    else st
  }

  /** The state after reading a text from the left. */
  function StateAfter(s: string): Scan {
    if s == "" then PLAIN else Next(StateAfter(s[..|s| - 1]), s[|s| - 1])
  }

  /** An unquoted, unescaped blank. */
  predicate IsBreak(s: string, i: nat)
    requires i < |s|
  {
    StateAfter(s[..i]) == PLAIN && Blank(s[i])
  }

  /** The token starts just after the last break, or at the beginning. */
  ghost predicate TokenStartsAt(head: string, start: nat) {
    && start <= |head|
    && (start > 0 ==> IsBreak(head, start - 1))
    && (forall i :: start <= i < |head| ==> !IsBreak(head, i))
  }

  /** There is only one such place. */
  lemma TokenStartUnique(head: string, a: nat, b: nat)
    requires TokenStartsAt(head, a) && TokenStartsAt(head, b)
    ensures a == b
  {
  }

  /** Strips a pair of quotes around the whole token, or an opening quote alone. */
  function Unquoted(raw: string): string {
    if |raw| >= 2 && QuoteMark(raw[0]) && raw[|raw| - 1] == raw[0] then raw[1..|raw| - 1]
    else if |raw| >= 1 && QuoteMark(raw[0]) then raw[1..]
    else raw
  }

  // ---------- the code ----------

  /** The position just after the trailing blanks are cut off. */
  method TrimRight(s: string) returns (trimmed: string)
    ensures trimmed <= s && (trimmed == "" || trimmed[|trimmed| - 1] !in " \t")
    ensures forall i :: |trimmed| <= i < |s| ==> s[i] in " \t"
  {
    var n := |s|;
    while n > 0 && Blank(s[n - 1])
      invariant 0 <= n <= |s| && forall i :: n <= i < |s| ==> Blank(s[i])
    {
      n := n - 1;
    }
    trimmed := s[..n];
  }

  lemma ScanOne(s: string, i: nat)
    requires i < |s|
    ensures StateAfter(s[..i + 1]) == Next(StateAfter(s[..i]), s[i])
  {
    assert s[..i + 1][..i] == s[..i];
  }

  /** The scan has come to position i, which may lie one past the end, behind an escape. */
  ghost predicate Scanned(head: string, i: nat, quote: char, lastBreak: int) {
    && (i <= |head| ==> StateAfter(head[..i]) == Scan(quote, false))
    && -1 <= lastBreak < |head| && lastBreak < i
    && (lastBreak >= 0 ==> IsBreak(head, lastBreak))
    && (forall j :: lastBreak < j < i && j < |head| ==> !IsBreak(head, j))
  }

  lemma NothingScanned(head: string)
    ensures Scanned(head, 0, NO_QUOTE, -1)
  {
  }

  /** One turn of the scan's loop. */
  lemma ScanStep(head: string, i: nat, quote: char, lastBreak: int)
    requires i < |head| && Scanned(head, i, quote, lastBreak)
    ensures head[i] == '\\' ==> Scanned(head, i + 2, quote, lastBreak)
    ensures head[i] != '\\' && quote != NO_QUOTE ==>
      Scanned(head, i + 1, if head[i] == quote then NO_QUOTE else quote, lastBreak)
    ensures head[i] != '\\' && quote == NO_QUOTE ==>
      Scanned(head, i + 1, if QuoteMark(head[i]) then head[i] else NO_QUOTE, if Blank(head[i]) then i else lastBreak)
  {
    ScanOne(head, i);
    if i + 1 < |head| {
      ScanOne(head, i + 1);
    }
    hide StateAfter;
  }

  lemma ScanIsOver(head: string, i: nat, quote: char, lastBreak: int)
    requires |head| <= i && Scanned(head, i, quote, lastBreak)
    ensures -1 <= lastBreak < |head|
    ensures TokenStartsAt(head, lastBreak + 1) && forall a :: TokenStartsAt(head, a) ==> a == lastBreak + 1
  {
    forall a | TokenStartsAt(head, a)
      ensures a == lastBreak + 1
    {
      TokenStartUnique(head, a, lastBreak + 1);
    }
  }

  /** The scan finds the one place where the token starts. */
  method ParseToken(line: string, cursor: int) returns (token: string, tokenStart: nat, isCommandPos: bool)
    ensures var head := if 0 <= cursor <= |line| then line[..cursor] else line;
      && TokenStartsAt(head, tokenStart) && (forall start :: TokenStartsAt(head, start) ==> start == tokenStart)
      && token == Unquoted(head[tokenStart..])
      && (isCommandPos <==> forall i :: 0 <= i < tokenStart ==> head[i] in " \t")
  {
    var end := if cursor < 0 || cursor > |line| then |line| else cursor;
    var head := line[..end];
    assert line[..|line|] == line;
    var quote := NO_QUOTE;
    var lastBreak := -1;
    var i := 0;
    hide *;
    NothingScanned(head);
    while i < |head|
      invariant 0 <= i <= |head| + 1
      invariant Scanned(head, i, quote, lastBreak)
    {
      var c := head[i];
      ScanStep(head, i, quote, lastBreak);
      if c == '\\' {
        i := i + 2;
        continue;
      }
      if quote != NO_QUOTE {
        if c == quote {
          quote := NO_QUOTE;
        }
        i := i + 1;
        continue;
      }
      if QuoteMark(c) {
        quote := c;
        i := i + 1;
        continue;
      }
      if Blank(c) {
        lastBreak := i;
      }
      i := i + 1;
    }
    ScanIsOver(head, i, quote, lastBreak);
    tokenStart := lastBreak + 1;
    token := Unquoted(head[tokenStart..]);
    var before := TrimRight(head[..tokenStart]);
    isCommandPos := before == "";
    if before != "" {
      assert head[|before| - 1] !in " \t";
    }
  }

  // ---------- words that survive ----------

  /** Every character of the word behind a backslash. */
  function Escape(word: string): string {
    if word == "" then "" else Escape(word[..|word| - 1]) + ['\\', word[|word| - 1]]
  }

  lemma StateSnoc(s: string, c: char)
    ensures StateAfter(s + [c]) == Next(StateAfter(s), c)
  {
  }

  lemma PrefixState(s: string, t: string, i: nat)
    requires i <= |s|
    ensures (s + t)[..i] == s[..i]
  {
  }

  /** Behind a break no escaped word contains another one. */
  lemma {:induction false} EscapeHasNoBreak(front: string, word: string)
    requires StateAfter(front) == PLAIN
    ensures StateAfter(front + Escape(word)) == PLAIN
    ensures forall i :: |front| <= i < |front + Escape(word)| ==> !IsBreak(front + Escape(word), i)
  {
    if word == "" {
      assert front + Escape(word) == front;
    } else {
      var shorter, c := word[..|word| - 1], word[|word| - 1];
      EscapeHasNoBreak(front, shorter);
      var before := front + Escape(shorter);
      var s := front + Escape(word);
      assert s == before + ['\\'] + [c];
      StateSnoc(before, '\\');
      StateSnoc(before + ['\\'], c);
      forall i | |front| <= i < |s|
        ensures !IsBreak(s, i)
      {
        if i < |before| {
          assert s[..i] == before[..i] && s[i] == before[i];
          assert !IsBreak(before, i);
        } else if i == |before| {
          assert s[i] == '\\';
        } else {
          assert s[..i] == before + ['\\'];
        }
      }
    }
  }

  lemma BreakAfter(line: string, blank: char)
    requires StateAfter(line) == PLAIN && Blank(blank)
    ensures StateAfter(line + [blank]) == PLAIN && IsBreak(line + [blank], |line|)
  {
  }

  lemma BreakStays(s: string, t: string, i: nat)
    requires i < |s|
    ensures IsBreak(s + t, i) <==> IsBreak(s, i)
  {
    PrefixState(s, t, i);
  }

  lemma StartsBehind(front: string, rest: string)
    requires front != "" && IsBreak(front, |front| - 1)
    requires forall i :: |front| <= i < |front + rest| ==> !IsBreak(front + rest, i)
    ensures TokenStartsAt(front + rest, |front|) && (front + rest)[|front|..] == rest
  {
    hide StateAfter;
    BreakStays(front, rest, |front| - 1);
  }

  /** After any closed line and a blank, the token is the escaped word, whatever the word. */
  lemma EscapedWordIsToken(line: string, blank: char, word: string)
    requires StateAfter(line) == PLAIN && blank in " \t"
    ensures var head := line + [blank] + Escape(word);
      TokenStartsAt(head, |line| + 1) && Unquoted(head[|line| + 1..]) == Escape(word)
  {
    var front := line + [blank];
    hide StateAfter, IsBreak, TokenStartsAt, Escape;
    BreakAfter(line, blank);
    EscapeHasNoBreak(front, word);
    StartsBehind(front, Escape(word));
    EscapedIsNotQuoted(word);
  }

  lemma {:induction false} EscapedIsNotQuoted(word: string)
    ensures Escape(word) == "" || Escape(word)[0] == '\\'
  {
    if word != "" {
      EscapedIsNotQuoted(word[..|word| - 1]);
    }
  }

  lemma {:induction false} QuotedHasNoBreak(front: string, q: char, word: string)
    requires StateAfter(front) == PLAIN && QuoteMark(q) && q !in word && '\\' !in word
    ensures StateAfter(front + [q] + word) == Scan(q, false)
    ensures forall i :: |front| <= i < |front + [q] + word| ==> !IsBreak(front + [q] + word, i)
  {
    if word == "" {
      assert front + [q] + word == front + [q];
      StateSnoc(front, q);
      assert (front + [q])[..|front|] == front;
    } else {
      var shorter, c := word[..|word| - 1], word[|word| - 1];
      assert word == shorter + [c];
      QuotedHasNoBreak(front, q, shorter);
      var before := front + [q] + shorter;
      var s := front + [q] + word;
      assert s == before + [c];
      StateSnoc(before, c);
      forall i | |front| <= i < |s|
        ensures !IsBreak(s, i)
      {
        if i < |before| {
          BreakStays(before, [c], i);
        } else {
          assert s[..i] == before;
        }
      }
    }
  }

  /** An open quote keeps blanks inside the token, and is stripped from it. */
  lemma QuotedWordIsToken(line: string, blank: char, q: char, word: string)
    requires StateAfter(line) == PLAIN && blank in " \t" && q in "\"'" && q !in word && '\\' !in word
    ensures var head := line + [blank] + [q] + word;
      TokenStartsAt(head, |line| + 1) && Unquoted(head[|line| + 1..]) == word
  {
    var front := line + [blank];
    hide StateAfter, IsBreak, Unquoted, TokenStartsAt;
    BreakAfter(line, blank);
    QuotedHasNoBreak(front, q, word);
    assert front + [q] + word == front + ([q] + word);
    StartsBehind(front, [q] + word);
    QuoteStripped(q, word);
  }

  lemma QuoteStripped(q: char, word: string)
    requires QuoteMark(q) && q !in word
    ensures Unquoted([q] + word) == word
  {
  }

  lemma NoBreakSnoc(before: string, c: char, from: nat)
    requires forall i :: from <= i < |before| ==> !IsBreak(before, i)
    requires StateAfter(before) != PLAIN || !Blank(c)
    ensures forall i :: from <= i < |before + [c]| ==> !IsBreak(before + [c], i)
  {
    forall i | from <= i < |before + [c]|
      ensures !IsBreak(before + [c], i)
    {
      if i < |before| {
        BreakStays(before, [c], i);
      } else {
        assert (before + [c])[..i] == before;
      }
    }
  }

  /** A quote that is closed again is stripped on both sides, and the line goes on as if it had not been there. */
  lemma ClosedQuoteIsToken(line: string, blank: char, q: char, word: string)
    requires StateAfter(line) == PLAIN && blank in " \t" && q in "\"'" && q !in word && '\\' !in word
    ensures var head := line + [blank] + [q] + word + [q];
      && TokenStartsAt(head, |line| + 1) && Unquoted(head[|line| + 1..]) == word
      && StateAfter(head) == PLAIN
  {
    var front := line + [blank];
    var before := front + [q] + word;
    hide StateAfter, IsBreak, Unquoted, TokenStartsAt;
    BreakAfter(line, blank);
    QuotedHasNoBreak(front, q, word);
    StateSnoc(before, q);
    NoBreakSnoc(before, q, |front|);
    assert before + [q] == front + ([q] + word + [q]);
    StartsBehind(front, [q] + word + [q]);
    PairStripped(q, word);
  }

  lemma PairStripped(q: char, word: string)
    requires QuoteMark(q)
    ensures Unquoted([q] + word + [q]) == word
  {
    var raw := [q] + word + [q];
    assert raw[1..|raw| - 1] == word;
  }

  lemma {:induction false} EscapedInQuotes(front: string, q: char, word: string, from: nat)
    requires StateAfter(front) == Scan(q, false) && QuoteMark(q)
    requires forall i :: from <= i < |front| ==> !IsBreak(front, i)
    ensures StateAfter(front + Escape(word)) == Scan(q, false)
    ensures forall i :: from <= i < |front + Escape(word)| ==> !IsBreak(front + Escape(word), i)
  {
    hide StateAfter, IsBreak;
    if word == "" {
      assert front + Escape(word) == front;
    } else {
      var shorter, c := word[..|word| - 1], word[|word| - 1];
      EscapedInQuotes(front, q, shorter, from);
      var before := front + Escape(shorter);
      assert front + Escape(word) == before + ['\\'] + [c];
      StateSnoc(before, '\\');
      StateSnoc(before + ['\\'], c);
      NoBreakSnoc(before, '\\', from);
      NoBreakSnoc(before + ['\\'], c, from);
    }
  }

  /** Inside quotes a backslash escapes as well: an escaped word, even one full of quotes, stays in the token. */
  lemma EscapedQuotedIsToken(line: string, blank: char, q: char, word: string)
    requires StateAfter(line) == PLAIN && blank in " \t" && q in "\"'"
    ensures TokenStartsAt(line + [blank] + [q] + Escape(word), |line| + 1)
  {
    var front := line + [blank];
    hide StateAfter, IsBreak, TokenStartsAt, Escape;
    BreakAfter(line, blank);
    QuotedHasNoBreak(front, q, "");
    assert front + [q] + "" == front + [q];
    EscapedInQuotes(front + [q], q, word, |front|);
    assert front + [q] + Escape(word) == front + ([q] + Escape(word));
    StartsBehind(front, [q] + Escape(word));
  }

  lemma {:induction false} PlainHasNoBreak(front: string, word: string)
    requires StateAfter(front) == PLAIN && forall c :: c in word ==> c !in " \t\"'\\"
    ensures StateAfter(front + word) == PLAIN
    ensures forall i :: |front| <= i < |front + word| ==> !IsBreak(front + word, i)
  {
    hide StateAfter, IsBreak;
    if word == "" {
      assert front + word == front;
    } else {
      var shorter, c := word[..|word| - 1], word[|word| - 1];
      assert word == shorter + [c] && c in word;
      PlainHasNoBreak(front, shorter);
      assert front + word == front + shorter + [c];
      StateSnoc(front + shorter, c);
      NoBreakSnoc(front + shorter, c, |front|);
    }
  }

  lemma PlainIsUnquoted(word: string)
    requires forall c :: c in word ==> c !in " \t\"'\\"
    ensures Unquoted(word) == word
  {
    assert word != "" ==> word[0] in word;
  }

  /** A word without blanks, quotes and backslashes is the token as it stands. */
  lemma PlainWordIsToken(line: string, blank: char, word: string)
    requires StateAfter(line) == PLAIN && blank in " \t" && forall c :: c in word ==> c !in " \t\"'\\"
    ensures var head := line + [blank] + word;
      TokenStartsAt(head, |line| + 1) && Unquoted(head[|line| + 1..]) == word
  {
    var front := line + [blank];
    hide StateAfter, IsBreak, Unquoted, TokenStartsAt;
    BreakAfter(line, blank);
    PlainHasNoBreak(front, word);
    StartsBehind(front, word);
    PlainIsUnquoted(word);
  }
}
