/**
 * Text and field normalisation of src/preprocess.py: `clean_text` and
 * `parse_list_like`.
 *
 * `clean_text` is modelled as the pipeline the code runs: `lower()`, the
 * substitution of `[^a-z0-9\s]` by a space, the substitution of `\s+` by one
 * space, then `strip()`. A second, independent definition (the words of the
 * text joined by single spaces) is proved equal to it, and the character-level
 * guarantees and idempotence are proved from that.
 */
module Normalize {
  import opened Common

  // ---------------------------------------------------------------------------
  // Characters
  // ---------------------------------------------------------------------------

  /** Python's `str.isspace()`: the characters `\s` matches and `strip()` removes. */
  predicate IsSpace(c: char)
  {
    '\t' <= c <= '\r' || '\U{1C}' <= c <= ' ' || c == '\U{85}' || c == '\U{A0}' ||
    c == '\U{1680}' || '\U{2000}' <= c <= '\U{200A}' || c == '\U{2028}' || c == '\U{2029}' ||
    c == '\U{202F}' || c == '\U{205F}' || c == '\U{3000}'
  }

  /** The characters the class `[a-z0-9]` accepts. */
  predicate IsLowerAlnum(c: char)
  {
    'a' <= c <= 'z' || '0' <= c <= '9'
  }

  /**
   * `str.lower()` of one character. ASCII capitals map to their lower-case
   * letter; KELVIN SIGN lowers to `k` and LATIN CAPITAL LETTER I WITH DOT
   * ABOVE to `i` followed by a combining dot, the two non-ASCII characters
   * whose lower case contains ASCII letters. Every other character is kept.
   */
  function LowerChar(c: char): string
  {
    if 'A' <= c <= 'Z' then [(c as int + 32) as char]
    else if c == '\U{212A}' then "k"
    else if c == '\U{130}' then "i\U{307}"
    else [c]
  }

  /** `str.lower()`. */
  function Lower(s: string): string
  {
    if s == [] then [] else LowerChar(s[0]) + Lower(s[1..])
  }

  /** `re.sub(r"[^a-z0-9\s]", " ", s)`. */
  function ReplaceOther(s: string): string
  {
    if s == [] then []
    else (if IsLowerAlnum(s[0]) || IsSpace(s[0]) then [s[0]] else " ") + ReplaceOther(s[1..])
  }

  /** `s` with its leading whitespace removed (`lstrip()`). */
  function DropSpace(s: string): (r: string)
    ensures |r| <= |s|
    ensures r == [] || !IsSpace(r[0])
  {
    if s != [] && IsSpace(s[0]) then DropSpace(s[1..]) else s
  }

  /** `s` with its trailing whitespace removed (`rstrip()`). */
  function DropSpaceRight(s: string): (r: string)
    ensures |r| <= |s|
    ensures r == [] || !IsSpace(r[|r| - 1])
  {
    if s != [] && IsSpace(s[|s| - 1]) then DropSpaceRight(s[..|s| - 1]) else s
  }

  /** `re.sub(r"\s+", " ", s)`: every maximal run of whitespace becomes one space. */
  function Collapse(s: string): string
    decreases |s|
  {
    if s == [] then []
    else if IsSpace(s[0]) then " " + Collapse(DropSpace(s))
    else [s[0]] + Collapse(s[1..])
  }

  /** `s.strip()`. */
  function Strip(s: string): string
  {
    DropSpaceRight(DropSpace(s))
  }

  /** `clean_text`: a missing value (NaN) gives the empty string. */
  function CleanText(text: Option<string>): string
  {
    match text
    case None => ""
    case Some(t) => Strip(Collapse(ReplaceOther(Lower(t))))
  }

  // ---------------------------------------------------------------------------
  // The reference definition: words joined by single spaces
  // ---------------------------------------------------------------------------

  /** A word: a non-empty run of non-whitespace characters. */
  predicate IsWord(w: string)
  {
    |w| > 0 && forall i :: 0 <= i < |w| ==> !IsSpace(w[i])
  }

  predicate AllWords(ws: seq<string>)
  {
    forall k :: 0 <= k < |ws| ==> IsWord(ws[k])
  }

  /** The longest prefix of `s` without whitespace. */
  function TakeWord(s: string): (w: string)
    ensures |w| <= |s|
    ensures s != [] && !IsSpace(s[0]) ==> |w| > 0
  {
    if s == [] || IsSpace(s[0]) then [] else [s[0]] + TakeWord(s[1..])
  }

  /** `s.split()`: the words of `s`, in order. */
  function Words(s: string): seq<string>
    decreases |s|
  {
    var t := DropSpace(s);
    if t == [] then []
    else
      var w := TakeWord(t);
      [w] + Words(t[|w|..])
  }

  /** Only the characters `a-z` and `0-9`. */
  predicate IsAlnumText(w: string)
  {
    forall i :: 0 <= i < |w| ==> IsLowerAlnum(w[i])
  }

  /** Only the characters `a-z`, `0-9` and whitespace: what the substitution step leaves. */
  predicate IsAlnumOrSpaceText(s: string)
  {
    forall i :: 0 <= i < |s| ==> IsLowerAlnum(s[i]) || IsSpace(s[i])
  }

  /** The shape `clean_text` promises: only `a-z`, `0-9` and single inner spaces. */
  predicate IsClean(s: string)
  {
    (forall i :: 0 <= i < |s| ==> IsLowerAlnum(s[i]) || s[i] == ' ') &&
    (|s| > 0 ==> s[0] != ' ' && s[|s| - 1] != ' ') &&
    (forall i :: 0 < i < |s| && s[i] == ' ' ==> s[i - 1] != ' ')
  }

  // ---------------------------------------------------------------------------
  // Properties of clean_text
  // ---------------------------------------------------------------------------

  /** A missing title or abstract cleans to the empty string. */
  lemma CleanTextMissing()
    ensures CleanText(None) == ""
  {
  }

  /** `clean_text` is `" ".join(s.split())` of the lower-cased, substituted text. */
  lemma CleanTextIsJoinedWords(t: string)
    ensures CleanText(Some(t)) == Join(Words(ReplaceOther(Lower(t))), " ")
  {
    StripCollapse(ReplaceOther(Lower(t)));
  }

  /** Every output character is `a-z`, `0-9` or a space; no leading, trailing or doubled space. */
  lemma CleanTextIsClean(text: Option<string>)
    ensures IsClean(CleanText(text))
  {
    if text.Some? {
      var u := ReplaceOther(Lower(text.value));
      ReplaceOtherChars(Lower(text.value));
      CleanTextIsJoinedWords(text.value);
      WordsAreWords(u);
      WordsChars(u);
      JoinWordsClean(Words(u));
    }
  }

  /** Cleaning keeps the words of the substituted text, in order, and only them. */
  lemma CleanTextKeepsWords(t: string)
    ensures Words(CleanText(Some(t))) == Words(ReplaceOther(Lower(t)))
  {
    CleanTextIsJoinedWords(t);
    WordsAreWords(ReplaceOther(Lower(t)));
    WordsOfJoin(Words(ReplaceOther(Lower(t))));
  }

  /** Text already in the shape `clean_text` produces is left unchanged. */
  lemma CleanTextFixesClean(s: string)
    requires IsClean(s)
    ensures CleanText(Some(s)) == s
  {
    LowerFixesAlnumSpace(s);
    ReplaceOtherFixesAlnumSpace(s);
    CollapseFixesSingleSpaces(s);
    DropSpaceOfNonSpace(s);
    DropSpaceRightOfNonSpace(s);
  }

  /** `clean_text(clean_text(t)) == clean_text(t)`. */
  lemma CleanTextIdempotent(text: Option<string>)
    ensures CleanText(Some(CleanText(text))) == CleanText(text)
  {
    CleanTextIsClean(text);
    CleanTextFixesClean(CleanText(text));
  }

  /** Text made only of lower-case letters, digits and whitespace keeps its words when cleaned. */
  lemma CleanTextOfAlnumText(t: string)
    requires IsAlnumOrSpaceText(t)
    ensures Words(CleanText(Some(t))) == Words(t)
  {
    LowerFixesAlnumSpace(t);
    ReplaceOtherFixesAlnumSpace(t);
    CleanTextKeepsWords(t);
  }

  /** Text of ASCII letters of either case, digits and whitespace keeps its lower-cased words when cleaned. */
  lemma CleanTextOfAsciiText(t: string)
    requires forall i :: 0 <= i < |t| ==> t[i] < '\U{80}' && ('A' <= t[i] <= 'Z' || IsLowerAlnum(t[i]) || IsSpace(t[i]))
    ensures Words(CleanText(Some(t))) == Words(Lower(t))
  {
    LowerAscii(t);
    forall i | 0 <= i < |Lower(t)|
      ensures IsLowerAlnum(Lower(t)[i]) || IsSpace(Lower(t)[i])
    {
      if 'A' <= t[i] <= 'Z' {
        assert Lower(t)[i] == (t[i] as int + 32) as char;
      } else {
        assert Lower(t)[i] == t[i];
      }
    }
    ReplaceOtherFixesAlnumSpace(Lower(t));
    CleanTextKeepsWords(t);
  }

  // ---------------------------------------------------------------------------
  // Helper lemmas: stripping
  // ---------------------------------------------------------------------------

  lemma DropSpaceOfNonSpace(s: string)
    requires s == [] || !IsSpace(s[0])
    ensures DropSpace(s) == s
  {
  }

  lemma DropSpaceRightOfNonSpace(s: string)
    requires s == [] || !IsSpace(s[|s| - 1])
    ensures DropSpaceRight(s) == s
  {
  }

  /** What `rstrip()` keeps is a prefix. */
  lemma {:induction false} DropSpaceRightPrefix(s: string)
    ensures DropSpaceRight(s) == s[..|DropSpaceRight(s)|]
    decreases |s|
  {
    if s != [] && IsSpace(s[|s| - 1]) {
      DropSpaceRightPrefix(s[..|s| - 1]);
    }
  }

  lemma DropSpaceIdempotent(s: string)
    ensures DropSpace(DropSpace(s)) == DropSpace(s)
  {
    DropSpaceOfNonSpace(DropSpace(s));
  }

  /** What `lstrip()` removes is whitespace, and what it keeps is a suffix. */
  lemma {:induction false} DropSpaceSuffix(s: string)
    ensures DropSpace(s) == s[|s| - |DropSpace(s)|..]
    ensures forall i :: 0 <= i < |s| - |DropSpace(s)| ==> IsSpace(s[i])
    decreases |s|
  {
    if s != [] && IsSpace(s[0]) {
      DropSpaceSuffix(s[1..]);
    }
  }

  lemma DropSpaceAfterSpace(x: string)
    ensures DropSpace(" " + x) == DropSpace(x)
  {
    assert (" " + x)[1..] == x;
  }

  lemma DropSpaceRightBeforeSpace(x: string)
    ensures DropSpaceRight(x + " ") == DropSpaceRight(x)
  {
    assert (x + " ")[..|x + " "| - 1] == x;
  }

  /** Stripping one optional space on either side of a join of words gives the join. */
  lemma StripPadded(a: string, j: string, b: string)
    requires a == "" || a == " "
    requires b == "" || b == " "
    requires j == [] || (!IsSpace(j[0]) && !IsSpace(j[|j| - 1]))
    ensures Strip(a + j + b) == j
  {
    if a == " " {
      assert a + j + b == " " + (j + b);
      DropSpaceAfterSpace(j + b);
    } else {
      assert a + j + b == j + b;
    }
    assert DropSpace(a + j + b) == DropSpace(j + b);
    if j == [] {
      assert j + b == b;
      if b == " " {
        DropSpaceAfterSpace([]);
      }
      assert DropSpace(j + b) == [];
    } else {
      DropSpaceOfNonSpace(j + b);
      if b == " " {
        DropSpaceRightBeforeSpace(j);
      } else {
        assert j + b == j;
      }
      DropSpaceRightOfNonSpace(j);
    }
  }

  // ---------------------------------------------------------------------------
  // Helper lemmas: words
  // ---------------------------------------------------------------------------

  /** TakeWord gives a prefix without whitespace, ending where whitespace (or the text) starts. */
  lemma {:induction false} TakeWordPrefix(s: string)
    ensures TakeWord(s) == s[..|TakeWord(s)|]
    ensures forall i :: 0 <= i < |TakeWord(s)| ==> !IsSpace(s[i])
    ensures |TakeWord(s)| == |s| || IsSpace(s[|TakeWord(s)|])
    decreases |s|
  {
    if s != [] && !IsSpace(s[0]) {
      TakeWordPrefix(s[1..]);
    }
  }

  /** Every element of `s.split()` is a word. */
  lemma {:induction false} WordsAreWords(s: string)
    ensures AllWords(Words(s))
    decreases |s|
  {
    var t := DropSpace(s);
    if t != [] {
      var w := TakeWord(t);
      TakeWordPrefix(t);
      assert IsWord(w);
      WordsAreWords(t[|w|..]);
      var rest := Words(t[|w|..]);
      assert Words(s) == [w] + rest;
      assert forall k :: 0 < k <= |rest| ==> ([w] + rest)[k] == rest[k - 1];
    }
  }

  lemma WordsDropSpace(s: string)
    ensures Words(DropSpace(s)) == Words(s)
  {
    DropSpaceIdempotent(s);
  }

  /** A word in front of whitespace (or of nothing) is exactly what TakeWord finds. */
  lemma {:induction false} TakeWordOfWord(w: string, rest: string)
    requires IsWord(w)
    requires rest == [] || IsSpace(rest[0])
    ensures TakeWord(w + rest) == w
    decreases |w|
  {
    if |w| > 1 {
      assert (w + rest)[1..] == w[1..] + rest;
      TakeWordOfWord(w[1..], rest);
    } else {
      assert (w + rest)[1..] == rest;
    }
  }

  /** The words of a word followed by whitespace (or nothing) and more text. */
  lemma WordsOfWordThen(w: string, rest: string)
    requires IsWord(w)
    requires rest == [] || IsSpace(rest[0])
    ensures Words(w + rest) == [w] + Words(rest)
  {
    var s := w + rest;
    DropSpaceOfNonSpace(s);
    TakeWordOfWord(w, rest);
    assert s[|w|..] == rest;
  }

  lemma WordsAfterSpace(j: string)
    ensures Words(" " + j) == Words(j)
  {
    DropSpaceAfterSpace(j);
    WordsDropSpace(" " + j);
    WordsDropSpace(j);
  }

  lemma AlnumOrSpaceSuffix(s: string, k: nat)
    requires IsAlnumOrSpaceText(s) && k <= |s|
    ensures IsAlnumOrSpaceText(s[k..])
  {
    forall i | 0 <= i < |s| - k ensures IsLowerAlnum(s[k..][i]) || IsSpace(s[k..][i]) {
      assert s[k..][i] == s[k + i];
    }
  }

  lemma TakeWordAlnum(t: string)
    requires IsAlnumOrSpaceText(t)
    ensures IsAlnumText(TakeWord(t))
  {
    var w := TakeWord(t);
    TakeWordPrefix(t);
    forall i | 0 <= i < |w| ensures IsLowerAlnum(w[i]) {
      assert w[i] == t[i];
    }
  }

  /** The words of a text made of letters, digits and whitespace are made of letters and digits. */
  lemma {:induction false} WordsChars(s: string)
    requires IsAlnumOrSpaceText(s)
    ensures forall k :: 0 <= k < |Words(s)| ==> IsAlnumText(Words(s)[k])
    decreases |s|
  {
    var t := DropSpace(s);
    if t != [] {
      DropSpaceSuffix(s);
      AlnumOrSpaceSuffix(s, |s| - |t|);
      var w := TakeWord(t);
      TakeWordAlnum(t);
      AlnumOrSpaceSuffix(t, |w|);
      WordsChars(t[|w|..]);
      ConsAlnumWords(w, Words(t[|w|..]));
    }
  }

  lemma ConsAlnumWords(w: string, rest: seq<string>)
    requires IsAlnumText(w)
    requires forall k :: 0 <= k < |rest| ==> IsAlnumText(rest[k])
    ensures forall k :: 0 <= k < |[w] + rest| ==> IsAlnumText(([w] + rest)[k])
  {
    forall k | 0 < k < |[w] + rest| ensures IsAlnumText(([w] + rest)[k]) {
      assert ([w] + rest)[k] == rest[k - 1];
    }
  }

  /** A join of words is empty exactly when there are no words, and neither starts nor ends with whitespace. */
  lemma {:induction false} JoinWordsEnds(ws: seq<string>)
    requires AllWords(ws)
    ensures (Join(ws, " ") == []) == (ws == [])
    ensures Join(ws, " ") != [] ==> !IsSpace(Join(ws, " ")[0]) && !IsSpace(Join(ws, " ")[|Join(ws, " ")| - 1])
    decreases |ws|
  {
    if |ws| > 1 {
      assert IsWord(ws[0]);
      JoinWordsEnds(ws[1..]);
      var j := Join(ws[1..], " ");
      var s := ws[0] + " " + j;
      assert Join(ws, " ") == s;
      assert s[0] == ws[0][0];
      assert s[|s| - 1] == j[|j| - 1];
    } else if |ws| == 1 {
      assert IsWord(ws[0]);
      assert Join(ws, " ") == ws[0];
    }
  }

  /** Joining words of letters and digits with single spaces gives a clean text. */
  lemma {:induction false} JoinWordsClean(ws: seq<string>)
    requires AllWords(ws)
    requires forall k :: 0 <= k < |ws| ==> IsAlnumText(ws[k])
    ensures IsClean(Join(ws, " "))
    decreases |ws|
  {
    if |ws| == 1 {
      assert Join(ws, " ") == ws[0];
      assert IsAlnumText(ws[0]);
    } else if |ws| > 1 {
      var w, j := ws[0], Join(ws[1..], " ");
      assert IsAlnumText(w);
      assert IsWord(w);
      JoinWordsClean(ws[1..]);
      JoinWordsEnds(ws[1..]);
      var s := w + " " + j;
      assert Join(ws, " ") == s;
      JoinCleanStep(w, j);
    }
  }

  lemma JoinCleanStep(w: string, j: string)
    requires |w| > 0 && IsAlnumText(w)
    requires IsClean(j) && j != []
    ensures IsClean(w + " " + j)
  {
    var s := w + " " + j;
    forall i | 0 <= i < |s| ensures IsLowerAlnum(s[i]) || s[i] == ' ' {
      if i < |w| { assert s[i] == w[i]; }
      else if i > |w| { assert s[i] == j[i - |w| - 1]; }
    }
    forall i | 0 < i < |s| ensures s[i] == ' ' ==> s[i - 1] != ' ' {
      if i < |w| { assert s[i] == w[i]; }
      else if i == |w| { assert s[i - 1] == w[|w| - 1]; }
      else if i == |w| + 1 { assert s[i] == j[0]; }
      else { assert s[i] == j[i - |w| - 1] && s[i - 1] == j[i - |w| - 2]; }
    }
    assert s[0] == w[0];
    assert s[|s| - 1] == j[|j| - 1];
  }

  /** Splitting words joined by single spaces gives back the words. */
  lemma {:induction false} WordsOfJoin(ws: seq<string>)
    requires AllWords(ws)
    ensures Words(Join(ws, " ")) == ws
    decreases |ws|
  {
    if |ws| == 1 {
      var w := ws[0];
      assert IsWord(w);
      assert Join(ws, " ") == w + [];
      WordsOfWordThen(w, []);
    } else if |ws| > 1 {
      var w, j := ws[0], Join(ws[1..], " ");
      assert IsWord(w);
      JoinWordsEnds(ws[1..]);
      WordsOfJoin(ws[1..]);
      assert Join(ws, " ") == w + (" " + j);
      WordsOfWordThen(w, " " + j);
      WordsAfterSpace(j);
      assert ws == [w] + ws[1..];
    }
  }

  // ---------------------------------------------------------------------------
  // Helper lemmas: collapsing whitespace
  // ---------------------------------------------------------------------------

  /** Collapsing a word followed by anything copies the word. */
  lemma {:induction false} CollapseWordThen(w: string, rest: string)
    requires forall i :: 0 <= i < |w| ==> !IsSpace(w[i])
    ensures Collapse(w + rest) == w + Collapse(rest)
    decreases |w|
  {
    if w != [] {
      assert (w + rest)[0] == w[0];
      assert (w + rest)[1..] == w[1..] + rest;
      CollapseWordThen(w[1..], rest);
    } else {
      assert w + rest == rest;
    }
  }

  /** The whitespace at the end of `s`, collapsed: `" "` when `s` ends in whitespace. */
  function Trail(s: string): string
  {
    if s != [] && IsSpace(s[|s| - 1]) then " " else ""
  }

  /** For a text that starts with a word, collapsing gives the words joined by spaces plus its trailing space. */
  lemma {:induction false} CollapseFromWord(s: string)
    requires s == [] || !IsSpace(s[0])
    ensures Collapse(s) == Join(Words(s), " ") + Trail(s)
    decreases |s|
  {
    if s != [] {
      var w := TakeWord(s);
      TakeWordPrefix(s);
      var rest := s[|w|..];
      assert s == w + rest;
      assert IsWord(w);
      CollapseWordThen(w, rest);
      WordsOfWordThen(w, rest);
      if rest == [] {
        assert Words(s) == [w] + Words([]);
        assert Join([w], " ") == w;
        assert s[|s| - 1] == w[|w| - 1];
      } else {
        CollapseAfterWord(s, w, rest);
      }
    }
  }

  /** The inductive step of CollapseFromWord: a word, then whitespace, then the rest. */
  lemma {:induction false} CollapseAfterWord(s: string, w: string, rest: string)
    requires IsWord(w) && rest != [] && IsSpace(rest[0]) && s == w + rest
    requires Collapse(s) == w + Collapse(rest)
    requires Words(s) == [w] + Words(rest)
    ensures Collapse(s) == Join(Words(s), " ") + Trail(s)
    decreases |s|, 1
  {
    var r2 := DropSpace(rest);
    if r2 == [] {
      CollapseWordThenSpace(s, w, rest);
    } else {
      assert Collapse(s) == w + (" " + Collapse(r2)) by {
        assert Collapse(rest) == " " + Collapse(r2);
      }
      assert Words(s) == [w] + Words(r2) by {
        WordsDropSpace(rest);
      }
      assert Trail(s) == Trail(r2) by {
        assert s[|w|..] == rest;
        TrailOfSuffix(s, |w|);
        DropSpaceIsSuffix(rest);
        TrailOfSuffix(rest, |rest| - |r2|);
      }
      CollapseAfterWordAndSpace(s, w, r2);
    }
  }

  /** A word followed only by whitespace collapses to the word and one space. */
  lemma CollapseWordThenSpace(s: string, w: string, rest: string)
    requires IsWord(w) && rest != [] && IsSpace(rest[0]) && s == w + rest && DropSpace(rest) == []
    requires Collapse(s) == w + Collapse(rest)
    requires Words(s) == [w] + Words(rest)
    ensures Collapse(s) == Join(Words(s), " ") + Trail(s)
  {
    assert Collapse(rest) == " " + Collapse([]);
    WordsDropSpace(rest);
    DropSpaceSuffix(rest);
    assert Trail(s) == " " by {
      assert s[|s| - 1] == rest[|rest| - 1];
      assert IsSpace(rest[|rest| - 1]);
    }
    assert Words(s) == [w];
    assert Join([w], " ") == w;
  }

  lemma {:induction false} CollapseAfterWordAndSpace(s: string, w: string, r2: string)
    requires r2 != [] && !IsSpace(r2[0]) && |r2| < |s|
    requires Collapse(s) == w + (" " + Collapse(r2))
    requires Words(s) == [w] + Words(r2)
    requires Trail(s) == Trail(r2)
    ensures Collapse(s) == Join(Words(s), " ") + Trail(s)
    decreases |s|, 0
  {
    CollapseFromWord(r2);
    WordsAreWords(r2);
    JoinWordsEnds(Words(r2));
    GlueWord(w, Words(r2), Trail(r2), Collapse(r2));
  }

  /** A word, a space and a joined text with its trailer are the joined words with that trailer. */
  lemma GlueWord(w: string, ws: seq<string>, trail: string, c: string)
    requires ws != [] && c == Join(ws, " ") + trail
    ensures w + (" " + c) == Join([w] + ws, " ") + trail
  {
    JoinCons(w, ws, " ");
    assert w + (" " + (Join(ws, " ") + trail)) == (w + " " + Join(ws, " ")) + trail;
  }

  lemma DropSpaceIsSuffix(s: string)
    ensures DropSpace(s) == s[|s| - |DropSpace(s)|..]
  {
    DropSpaceSuffix(s);
  }

  /** A non-empty suffix ends in whitespace exactly when the whole text does. */
  lemma TrailOfSuffix(x: string, k: nat)
    requires k < |x|
    ensures Trail(x[k..]) == Trail(x)
  {
    assert x[k..][|x[k..]| - 1] == x[|x| - 1];
  }

  lemma JoinCons(w: string, ws: seq<string>, sep: string)
    requires ws != []
    ensures Join([w] + ws, sep) == w + sep + Join(ws, sep)
  {
    assert ([w] + ws)[1..] == ws;
  }

  /** The whitespace at the start of `s`, collapsed: `" "` when `s` starts with whitespace. */
  function Lead(s: string): string
  {
    if s != [] && IsSpace(s[0]) then " " else ""
  }

  lemma CollapseLead(s: string)
    ensures Collapse(s) == Lead(s) + Collapse(DropSpace(s))
  {
    if s == [] || !IsSpace(s[0]) {
      DropSpaceOfNonSpace(s);
      assert Lead(s) + Collapse(s) == Collapse(s);
    }
  }

  /** `re.sub(r"\s+", " ", s).strip() == " ".join(s.split())`. */
  lemma StripCollapse(s: string)
    ensures Strip(Collapse(s)) == Join(Words(s), " ")
  {
    CollapseIsPaddedJoin(s);
    JoinedWordsTrimmed(s);
    StripPaddedJoin(Collapse(s), Lead(s), Join(Words(s), " "), Trail(DropSpace(s)));
  }

  /** Collapsing gives the joined words, with one space in front and one behind where the text had whitespace there. */
  lemma CollapseIsPaddedJoin(s: string)
    ensures Collapse(s) == Lead(s) + Join(Words(s), " ") + Trail(DropSpace(s))
  {
    var t := DropSpace(s);
    CollapseLead(s);
    CollapseFromWord(t);
    WordsDropSpace(s);
    Regroup(Collapse(s), Lead(s), Collapse(t), Join(Words(s), " "), Trail(t));
  }

  lemma Regroup(x: string, a: string, c: string, j: string, b: string)
    requires x == a + c && c == j + b
    ensures x == a + j + b
  {
  }

  /** The joined words start and end with non-whitespace. */
  lemma JoinedWordsTrimmed(s: string)
    ensures var j := Join(Words(s), " ");
      j == [] || (!IsSpace(j[0]) && !IsSpace(j[|j| - 1]))
  {
    WordsAreWords(s);
    JoinWordsEnds(Words(s));
  }

  lemma StripPaddedJoin(x: string, a: string, j: string, b: string)
    requires x == a + j + b
    requires a == "" || a == " "
    requires b == "" || b == " "
    requires j == [] || (!IsSpace(j[0]) && !IsSpace(j[|j| - 1]))
    ensures Strip(x) == j
  {
    StripPadded(a, j, b);
  }

  lemma {:induction false} ReplaceOtherChars(s: string)
    ensures IsAlnumOrSpaceText(ReplaceOther(s))
    decreases |s|
  {
    if s != [] {
      ReplaceOtherChars(s[1..]);
      var head: string := if IsLowerAlnum(s[0]) || IsSpace(s[0]) then [s[0]] else " ";
      var tail := ReplaceOther(s[1..]);
      assert ReplaceOther(s) == head + tail;
      forall i | 0 <= i < |head + tail|
        ensures IsLowerAlnum((head + tail)[i]) || IsSpace((head + tail)[i])
      {
        if i > 0 {
          assert (head + tail)[i] == tail[i - 1];
        }
      }
    }
  }

  lemma {:induction false} LowerFixesAlnumSpace(s: string)
    requires IsAlnumOrSpaceText(s)
    ensures Lower(s) == s
    decreases |s|
  {
    if s != [] {
      LowerFixesAlnumSpace(s[1..]);
      assert s == [s[0]] + s[1..];
    }
  }

  lemma {:induction false} ReplaceOtherFixesAlnumSpace(s: string)
    requires IsAlnumOrSpaceText(s)
    ensures ReplaceOther(s) == s
    decreases |s|
  {
    if s != [] {
      ReplaceOtherFixesAlnumSpace(s[1..]);
      assert s == [s[0]] + s[1..];
    }
  }

  /** Single spaces between letters and digits survive collapsing unchanged. */
  lemma {:induction false} CollapseFixesSingleSpaces(s: string)
    requires forall i :: 0 <= i < |s| ==> IsLowerAlnum(s[i]) || s[i] == ' '
    requires forall i :: 0 < i < |s| && s[i] == ' ' ==> s[i - 1] != ' '
    ensures Collapse(s) == s
    decreases |s|
  {
    if s != [] {
      CollapseFixesSingleSpaces(s[1..]);
      if s[0] == ' ' {
        assert |s| > 1 ==> s[1] != ' ' && !IsSpace(s[1]);
        DropSpaceOfNonSpace(s[1..]);
        assert DropSpace(s) == s[1..];
      }
      assert s == [s[0]] + s[1..];
    }
  }

  // ---------------------------------------------------------------------------
  // Lower-casing of the search query
  // ---------------------------------------------------------------------------

  /** On ASCII text `lower()` changes only the capitals `A-Z`; punctuation and digits stay. */
  lemma {:induction false} LowerAscii(s: string)
    requires forall i :: 0 <= i < |s| ==> s[i] < '\U{80}'
    ensures |Lower(s)| == |s|
    ensures forall i :: 0 <= i < |s| ==>
      Lower(s)[i] == if 'A' <= s[i] <= 'Z' then (s[i] as int + 32) as char else s[i]
    decreases |s|
  {
    if s != [] {
      LowerAscii(s[1..]);
      assert Lower(s) == LowerChar(s[0]) + Lower(s[1..]);
      forall i | 0 < i < |s|
        ensures Lower(s)[i] == if 'A' <= s[i] <= 'Z' then (s[i] as int + 32) as char else s[i]
      {
        assert Lower(s)[i] == Lower(s[1..])[i - 1];
      }
    }
  }

  /** Lower-casing twice is lower-casing once. */
  lemma {:induction false} LowerIdempotent(s: string)
    ensures Lower(Lower(s)) == Lower(s)
    decreases |s|
  {
    if s != [] {
      LowerIdempotent(s[1..]);
      LowerAppend(LowerChar(s[0]), Lower(s[1..]));
      var h := LowerChar(s[0]);
      if 'A' <= s[0] <= 'Z' || s[0] == '\U{212A}' {
        assert Lower(h) == LowerChar(h[0]) + Lower([]);
      } else if s[0] == '\U{130}' {
        assert h == ['i'] + ['\U{307}'];
        LowerAppend(['i'], ['\U{307}']);
      } else {
        assert Lower(h) == LowerChar(h[0]) + Lower([]);
      }
    }
  }

  lemma {:induction false} LowerAppend(a: string, b: string)
    ensures Lower(a + b) == Lower(a) + Lower(b)
    decreases |a|
  {
    if a != [] {
      assert (a + b)[1..] == a[1..] + b;
      LowerAppend(a[1..], b);
    } else {
      assert a + b == b;
    }
  }

  // ---------------------------------------------------------------------------
  // parse_list_like
  // ---------------------------------------------------------------------------

  /** `val.startswith("[") and val.endswith("]")`. */
  predicate IsBracketed(s: string)
  {
    |s| > 0 && s[0] == '[' && s[|s| - 1] == ']'
  }

  /**
   * `parse_list_like`. `value` is `str(value)` of the cell, or None for NaN.
   * `literal` stands for `ast.literal_eval` followed by the `isinstance(parsed,
   * list)` test and `str(x)` of every item: it gives the item texts when the
   * text parses to a list, and None when parsing raises or gives anything else.
   */
  function ParseListLike(value: Option<string>, literal: string -> Option<seq<string>>): string
  {
    match value
    case None => ""
    case Some(v) =>
      var val := Strip(v);
      if IsBracketed(val) && literal(val).Some? then Join(literal(val).value, ", ") else val
  }

  /** The stripped text and `strip()` do not disagree: stripping twice is stripping once. */
  lemma StripIdempotent(s: string)
    ensures Strip(Strip(s)) == Strip(s)
  {
    var t := Strip(s);
    StripEnds(s);
    DropSpaceOfNonSpace(t);
    DropSpaceRightOfNonSpace(t);
  }

  /** Stripped text starts and ends with non-whitespace. */
  lemma StripEnds(s: string)
    ensures Strip(s) == [] || (!IsSpace(Strip(s)[0]) && !IsSpace(Strip(s)[|Strip(s)| - 1]))
  {
    var d := DropSpace(s);
    var r := DropSpaceRight(d);
    DropSpaceRightPrefix(d);
    if r != [] {
      assert r[0] == d[0];
    }
  }

  /** Whenever the value is not turned into a join of items, the result carries no surrounding whitespace. */
  lemma ParseListLikeFallbackStripped(v: string, literal: string -> Option<seq<string>>)
    requires !IsBracketed(Strip(v)) || literal(Strip(v)).None?
    ensures ParseListLike(Some(v), literal) == Strip(v)
    ensures Strip(ParseListLike(Some(v), literal)) == ParseListLike(Some(v), literal)
  {
    StripIdempotent(v);
  }

  /** Already clean text and comma-separated names come back unchanged. */
  lemma ParseListLikeKeepsPlainText(v: string, literal: string -> Option<seq<string>>)
    requires v == [] || (!IsSpace(v[0]) && !IsSpace(v[|v| - 1]))
    requires !IsBracketed(v)
    ensures ParseListLike(Some(v), literal) == v
  {
    if v != [] {
      assert DropSpace(v) == v;
      assert DropSpaceRight(v) == v;
    }
  }

  /** Applying `parse_list_like` to its own fallback result changes nothing. */
  lemma ParseListLikeFallbackIdempotent(v: string, literal: string -> Option<seq<string>>)
    requires !IsBracketed(Strip(v)) || literal(Strip(v)).None?
    ensures ParseListLike(Some(ParseListLike(Some(v), literal)), literal) == ParseListLike(Some(v), literal)
  {
    StripIdempotent(v);
  }

  /** `["A", "B"]` becomes `A, B` when the literal parser reads it as the list of A and B. */
  lemma ParseListLikeExample(literal: string -> Option<seq<string>>)
    requires literal("[\"A\", \"B\"]") == Some(["A", "B"])
    ensures ParseListLike(Some("[\"A\", \"B\"]"), literal) == "A, B"
    ensures ParseListLike(Some("A, B"), literal) == "A, B"
    ensures ParseListLike(Some("[broken"), literal) == "[broken"
  {
    var listText := "[\"A\", \"B\"]";
    assert DropSpace(listText) == listText;
    assert DropSpaceRight(listText) == listText;
    assert Join(["A", "B"], ", ") == "A" + ", " + "B";
    ParseListLikeKeepsPlainText("A, B", literal);
    ParseListLikeKeepsPlainText("[broken", literal);
  }
}
