/**
 Python's str.split() with no separator, as the brand back-fill uses it on
 product_name: the text is cut at every run of whitespace, and leading and
 trailing whitespace gives no empty words. Whitespace is the set
 str.isspace() accepts.
 */
module Words {
  import opened Wrappers

  /** The characters str.split() treats as whitespace. */
  predicate IsSpace(c: char) {
    || ('\U{9}' <= c <= '\U{d}') || ('\U{1c}' <= c <= '\U{20}')
    || c == '\U{85}' || c == '\U{a0}' || c == '\U{1680}'
    || ('\U{2000}' <= c <= '\U{200a}') || c == '\U{2028}' || c == '\U{2029}'
    || c == '\U{202f}' || c == '\U{205f}' || c == '\U{3000}'
  }

  predicate IsBlank(s: string) {
    forall i :: 0 <= i < |s| ==> IsSpace(s[i])
  }

  /** A word is what split() can return: non-empty and free of whitespace. */
  predicate IsWord(w: string) {
    w != [] && forall i :: 0 <= i < |w| ==> !IsSpace(w[i])
  }

  /** The maximal run of non-whitespace at the front of s. */
  function LeadingWord(s: string): (w: string)
    ensures |w| <= |s| && w == s[..|w|]
    ensures forall i :: 0 <= i < |w| ==> !IsSpace(w[i])
    ensures |w| < |s| ==> IsSpace(s[|w|])
  {
    if s != [] && !IsSpace(s[0]) then [s[0]] + LeadingWord(s[1..]) else []
  }

  /** str.split(): the words of s in their order. */
  function Split(s: string): (ws: seq<string>)
    ensures forall k :: 0 <= k < |ws| ==> IsWord(ws[k])
    decreases |s|
  {
    if s == [] then []
    else if IsSpace(s[0]) then Split(s[1..])
    else
      var w := LeadingWord(s);
      [w] + Split(s[|w|..])
  }

  /** `.str[0]` of the split: the first word, or None when there is none. */
  function FirstWord(s: string): (r: Option<string>)
    ensures r.Some? <==> !IsBlank(s)
    ensures r.Some? ==> IsWord(r.value)
  {
    SplitOfBlank(s);
    var ws := Split(s);
    if ws == [] then None else Some(ws[0])
  }

  /** split() returns no word exactly when the text is blank. */
  lemma {:induction false} SplitOfBlank(s: string)
    ensures Split(s) == [] <==> IsBlank(s)
    decreases |s|
  {
    if s != [] && IsSpace(s[0]) {
      SplitOfBlank(s[1..]);
      assert IsBlank(s) <==> IsBlank(s[1..]) by {
        assert forall i :: 1 <= i < |s| ==> s[i] == s[1..][i - 1];
      }
    }
  }

  /** Whitespace in front of a text does not change its words. */
  lemma {:induction false} SplitAfterBlank(b: string, s: string)
    requires IsBlank(b)
    ensures Split(b + s) == Split(s)
    decreases |b|
  {
    if b != [] {
      assert (b + s)[0] == b[0] && (b + s)[1..] == b[1..] + s;
      SplitAfterBlank(b[1..], s);
    } else {
      assert b + s == s;
    }
  }

  /** A word followed by whitespace, or by nothing, is the first word. */
  lemma {:induction false} LeadingWordOf(w: string, rest: string)
    requires forall i :: 0 <= i < |w| ==> !IsSpace(w[i])
    requires rest == [] || IsSpace(rest[0])
    ensures LeadingWord(w + rest) == w
    decreases |w|
  {
    if w != [] {
      assert (w + rest)[1..] == w[1..] + rest;
      LeadingWordOf(w[1..], rest);
    } else {
      assert w + rest == rest;
    }
  }

  /** The words joined with single spaces, as a canonical product name is written. */
  function Join(ws: seq<string>): (s: string)
    ensures ws != [] && IsWord(ws[0]) ==> s != [] && !IsSpace(s[0])
  {
    if ws == [] then [] else if |ws| == 1 then ws[0] else ws[0] + " " + Join(ws[1..])
  }

  /** A word followed by whitespace, or by nothing, is split off first. */
  lemma SplitOfWord(w: string, rest: string)
    requires IsWord(w)
    requires rest == [] || IsSpace(rest[0])
    ensures Split(w + rest) == [w] + Split(rest)
  {
    LeadingWordOf(w, rest);
    assert (w + rest)[0] == w[0];
    assert (w + rest)[|w|..] == rest;
  }

  /** Splitting the words joined by single spaces gives back the words. */
  lemma {:induction false} SplitJoin(ws: seq<string>)
    requires forall k :: 0 <= k < |ws| ==> IsWord(ws[k])
    ensures Split(Join(ws)) == ws
  {
    if |ws| == 1 {
      SplitOfWord(ws[0], []);
      assert ws[0] + [] == ws[0];
    } else if |ws| > 1 {
      var w, j := ws[0], Join(ws[1..]);
      assert Join(ws) == w + (" " + j);
      SplitOfWord(w, " " + j);
      SplitAfterBlank(" ", j);
      SplitJoin(ws[1..]);
      assert ws == [w] + ws[1..];
    }
  }

  /** The first word of "w rest" is w, whatever whitespace precedes it. */
  lemma FirstWordOf(b: string, w: string, rest: string)
    requires IsBlank(b) && IsWord(w)
    requires rest == [] || IsSpace(rest[0])
    ensures FirstWord(b + w + rest) == Some(w)
  {
    assert b + w + rest == b + (w + rest);
    SplitAfterBlank(b, w + rest);
    LeadingWordOf(w, rest);
    assert (w + rest)[0] == w[0];
  }

  /** "Acme Widget 3" gives brand "Acme". */
  lemma FirstWordOfNameExample()
    ensures FirstWord("Acme Widget 3") == Some("Acme")
  {
    assert "Acme Widget 3" == "" + "Acme" + " Widget 3";
    FirstWordOf("", "Acme", " Widget 3");
  }

  /** Leading whitespace is skipped: "  Acme" gives "Acme". */
  lemma FirstWordOfPaddedExample()
    ensures FirstWord("  Acme") == Some("Acme")
  {
    assert "  Acme" == "  " + "Acme" + "";
    FirstWordOf("  ", "Acme", "");
  }
}
