/**
 * The avatar fallback of the snippet card: the author's display name is split
 * on the one-space string, JavaScript-style, and two characters are picked
 * from the first two words. The expression is modelled with the values
 * JavaScript actually produces, so that names the expression was not written
 * for (one letter, empty words) give what the card shows for them.
 */
module Initials {

  /** The values the initials expression can take: a string, `undefined`, or `NaN`. */
  datatype JsValue = JsString(s: string) | JsUndefined | JsNaN

  /**
   * `s.split(" ")`: the maximal runs between single spaces, so two adjacent
   * spaces give an empty word and the empty string gives `[""]`.
   */
  function Split(s: string): (words: seq<string>)
    ensures |words| >= 1
    ensures forall w :: w in words ==> ' ' !in w
  {
    if s == [] then [""]
    else
      var rest := Split(s[1..]);
      if s[0] == ' ' then [""] + rest
      else [[s[0]] + rest[0]] + rest[1..]
  }

  /** `words.join(" ")`, the inverse of `Split`. */
  function Join(words: seq<string>): string
    requires |words| >= 1
  {
    if |words| == 1 then words[0] else words[0] + " " + Join(words[1..])
  }

  /** Joining the pieces of a split gives back the name. */
  lemma {:induction false} JoinSplit(s: string)
    ensures Join(Split(s)) == s
  {
    if s != [] {
      JoinSplit(s[1..]);
      var rest := Split(s[1..]);
      if s[0] == ' ' {
        assert Split(s) == [""] + rest;
        assert ([""] + rest)[1..] == rest;
        assert s == "" + " " + s[1..];
      } else if |rest| == 1 {
        assert Split(s) == [[s[0]] + rest[0]];
        assert s == [s[0]] + s[1..];
      } else {
        var words := Split(s);
        assert words == [[s[0]] + rest[0]] + rest[1..];
        assert words[1..] == rest[1..];
        assert s == [s[0]] + s[1..];
      }
    }
  }

  /** A name without a space is one word. */
  lemma {:induction false} SplitNoSpace(s: string)
    requires ' ' !in s
    ensures Split(s) == [s]
  {
    if s != [] {
      SplitNoSpace(s[1..]);
      assert s == [s[0]] + s[1..];
    }
  }

  /** A space splits a name into the words before it and the words after it. */
  lemma {:induction false} SplitConcat(a: string, b: string)
    ensures Split(a + " " + b) == Split(a) + Split(b)
  {
    var ab := a + " " + b;
    if a == [] {
      assert ab == [' '] + b;
      assert ab[1..] == b;
    } else {
      assert ab[0] == a[0] && ab[1..] == a[1..] + " " + b;
      SplitConcat(a[1..], b);
      var rest := Split(a[1..]);
      if a[0] != ' ' {
        assert (rest + Split(b))[0] == rest[0];
        assert (rest + Split(b))[1..] == rest[1..] + Split(b);
      }
    }
  }

  /** The words of a name that are free of spaces and joined back are those words. */
  lemma {:induction false} SplitJoin(words: seq<string>)
    requires |words| >= 1
    requires forall w :: w in words ==> ' ' !in w
    ensures Split(Join(words)) == words
  {
    if |words| == 1 {
      SplitNoSpace(words[0]);
    } else {
      SplitJoin(words[1..]);
      SplitNoSpace(words[0]);
      SplitConcat(words[0], Join(words[1..]));
      assert words == [words[0]] + words[1..];
    }
  }

  /** `w[i]` on a JavaScript string: the one-character string, or `undefined` past the end. */
  function CharAt(w: string, i: nat): (v: JsValue)
    ensures v.JsString? <==> i < |w|
    ensures v.JsString? ==> v.s == [w[i]]
    ensures !v.JsString? ==> v == JsUndefined
  {
    if i < |w| then JsString([w[i]]) else JsUndefined
  }

  /** String conversion of a value, as `+` performs it. */
  function ToText(v: JsValue): string
  {
    match v
    case JsString(s) => s
    case JsUndefined => "undefined"
    case JsNaN => "NaN"
  }

  /**
   * JavaScript `+` on these values: concatenation as soon as one side is a
   * string, numeric addition (`NaN`) otherwise.
   */
  function Plus(x: JsValue, y: JsValue): (v: JsValue)
    ensures v.JsString? <==> x.JsString? || y.JsString?
    ensures v.JsString? ==> v.s == ToText(x) + ToText(y)
    ensures !v.JsString? ==> v == JsNaN
  {
    if x.JsString? || y.JsString? then JsString(ToText(x) + ToText(y)) else JsNaN
  }

  /**
   * The names the expression was written for: a single word of at least two
   * characters, or a first and a second word that are not empty.
   */
  predicate WellFormedName(name: string)
  {
    var words := Split(name);
    if |words| < 2 then |words[0]| >= 2 else |words[0]| >= 1 && |words[1]| >= 1
  }

  /**
   * The initials expression of the avatar fallback, as written: when the
   * split has no second word, the first two characters of the first word;
   * otherwise the first characters of the first two words.
   */
  function InitialsAsWritten(name: string): (v: JsValue)
    ensures WellFormedName(name) <==> v.JsString? && |v.s| == 2
    ensures WellFormedName(name) ==> ' ' !in v.s
  {
    var words := Split(name);
    var first := words[0];
    assert first in words;
    if |words| < 2 then
      assert |first| >= 2 ==> first[0] in first && first[1] in first;
      Plus(CharAt(first, 0), CharAt(first, 1))
    else
      var second := words[1];
      assert second in words;
      assert first != "" && second != "" ==> first[0] in first && second[0] in second;
      Plus(CharAt(first, 0), CharAt(second, 0))
  }

  /** A name without a space and of at least two characters gives its first two characters. */
  lemma InitialsOfOneWord(name: string)
    requires ' ' !in name && |name| >= 2
    ensures InitialsAsWritten(name) == JsString(name[..2])
  {
    SplitNoSpace(name);
  }

  /** Words after the second do not change the initials. */
  lemma {:induction false} InitialsIgnoreLaterWords(name: string, rest: string)
    requires |Split(name)| >= 2
    ensures InitialsAsWritten(name + " " + rest) == InitialsAsWritten(name)
  {
    SplitConcat(name, rest);
    var words := Split(name);
    assert (words + Split(rest))[0] == words[0];
    assert (words + Split(rest))[1] == words[1];
  }

  /** Two non-empty words give their first characters. */
  lemma {:induction false} InitialsOfTwoWords(first: string, second: string)
    requires first != "" && second != ""
    requires ' ' !in first && ' ' !in second
    ensures InitialsAsWritten(first + " " + second) == JsString([first[0], second[0]])
  {
    SplitConcat(first, second);
    SplitNoSpace(first);
    SplitNoSpace(second);
    assert Split(first + " " + second) == [first, second];
  }

  /** What the avatar fallback shows for the expression's value. */
  function Rendered(v: JsValue): string
  {
    match v
    case JsString(s) => s
    case JsUndefined => ""
    case JsNaN => "NaN"
  }

  /** Names the expression was not written for: the card shows `undefined` or `NaN` text. */
  lemma InitialsJunk()
    ensures Rendered(InitialsAsWritten("A")) == "Aundefined"
    ensures Rendered(InitialsAsWritten("")) == "NaN"
    ensures Rendered(InitialsAsWritten("A  B")) == "Aundefined"
  {
  }

  /** The non-empty words, in order. */
  function NonEmptyWords(words: seq<string>): (r: seq<string>)
    ensures forall w :: w in r <==> w in words && w != ""
  {
    if words == [] then []
    else if words[0] == "" then NonEmptyWords(words[1..])
    else [words[0]] + NonEmptyWords(words[1..])
  }

  /** A character other than a space is in the name exactly when it is in one of its words. */
  lemma {:induction false} SplitChars(s: string, c: char)
    requires c != ' '
    ensures c in s <==> exists w :: w in Split(s) && c in w
  {
    if s != [] {
      SplitChars(s[1..], c);
      var rest := Split(s[1..]);
      assert s == [s[0]] + s[1..];
      if s[0] == ' ' {
        assert Split(s) == [""] + rest;
      } else {
        var words := Split(s);
        assert words == [[s[0]] + rest[0]] + rest[1..];
        assert rest == [rest[0]] + rest[1..];
        if c in s[1..] {
          var w :| w in rest && c in w;
          if w == rest[0] { assert c in words[0]; } else { assert w in words; }
        }
        if c == s[0] {
          assert c in words[0];
        }
      }
    }
  }

  /** The characters of the non-empty words are the characters of the name other than spaces. */
  lemma NonEmptyWordsChars(name: string)
    ensures forall c :: c != ' ' ==> (c in name <==> exists w :: w in NonEmptyWords(Split(name)) && c in w)
  {
    forall c | c != ' '
      ensures c in name <==> exists w :: w in NonEmptyWords(Split(name)) && c in w
    {
      SplitChars(name, c);
    }
  }

  /** When the first two words are not empty, they are the first two non-empty words. */
  lemma NonEmptyWordsOfWellFormed(name: string)
    ensures var words := Split(name);
      |words| >= 2 && words[0] != "" && words[1] != "" ==>
        NonEmptyWords(words) == [words[0], words[1]] + NonEmptyWords(words[2..])
    ensures var words := Split(name);
      |words| == 1 && words[0] != "" ==> NonEmptyWords(words) == words
  {
  }

  /** The non-empty words, joined by single spaces, split back into themselves. */
  lemma NonEmptyWordsSplitBack(name: string)
    ensures var ws := NonEmptyWords(Split(name));
      |ws| >= 1 ==> Split(Join(ws)) == ws
  {
    var ws := NonEmptyWords(Split(name));
    if |ws| >= 1 {
      SplitJoin(ws);
    }
  }

  /**
   * The initials the avatar evidently means to show: the first characters of
   * the first two non-empty words, or up to two characters of the only
   * non-empty word, and nothing for a name of spaces.
   */
  function InitialsCorrected(name: string): (r: string)
    ensures |r| <= 2
    ensures forall c :: c in r ==> c != ' ' && c in name
    ensures r == "" <==> forall c :: c in name ==> c == ' '
    ensures WellFormedName(name) ==> InitialsAsWritten(name) == JsString(r)
    ensures var ws := NonEmptyWords(Split(name));
      |ws| >= 1 && WellFormedName(Join(ws)) ==> InitialsAsWritten(Join(ws)) == JsString(r)
    ensures var ws := NonEmptyWords(Split(name));
      |ws| == 1 && |ws[0]| == 1 ==> r == ws[0]
  {
    var words := Split(name);
    var ws := NonEmptyWords(words);
    NonEmptyWordsChars(name);
    NonEmptyWordsOfWellFormed(name);
    NonEmptyWordsSplitBack(name);
    if |ws| == 0 then ""
    else
      var first := ws[0];
      assert first in ws && first[0] in first;
      assert first[0] != ' ' && first[0] in name;
      if |ws| == 1 then
        if |first| >= 2 then
          assert first[1] in first;
          assert first[..2] == [first[0], first[1]];
          first[..2]
        else
          first
      else
        var second := ws[1];
        assert second in ws && second[0] in second;
        [first[0], second[0]]
  }

}
