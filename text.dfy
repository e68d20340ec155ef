/**
 Text normalisation of fetched pages: `clean_text` (app.py:30-32) and the
 acceptance gate of `fetch_url_text` (app.py:48-51).

 `clean_text` is `" ".join(raw.split()).strip()`.  It is modelled on its own
 terms: `Words` is Python's argument-less `str.split()`, `Join` is
 `" ".join`, `Strip` is `str.strip()`.
 */
module Text {
  import opened Wrappers

  /** The minimum length, in characters, of an accepted page text. */
  const MinTextLength: nat := 500

  /** The characters Python's `str.split()` and `str.strip()` treat as
      whitespace (those for which `str.isspace()` holds). */
  predicate IsWhitespace(c: char)
  {
    || '\t' <= c <= '\r'
    || '\U{1C}' <= c <= '\U{1F}'
    || c == ' '
    || c == '\U{85}'
    || c == '\U{A0}'
    || c == '\U{1680}'
    || '\U{2000}' <= c <= '\U{200A}'
    || c == '\U{2028}'
    || c == '\U{2029}'
    || c == '\U{202F}'
    || c == '\U{205F}'
    || c == '\U{3000}'
  }

  predicate NoWhitespace(w: string)
  {
    forall i :: 0 <= i < |w| ==> !IsWhitespace(w[i])
  }

  /** A word as `str.split()` yields it: non-empty, no whitespace inside. */
  predicate IsWord(w: string)
  {
    w != [] && NoWhitespace(w)
  }

  /** The shape of normalised text: no whitespace at either end, and every
      whitespace character is a single space standing between two
      non-whitespace characters. */
  predicate Normalized(t: string)
  {
    forall i :: 0 <= i < |t| && IsWhitespace(t[i]) ==>
      t[i] == ' ' && 0 < i < |t| - 1 && !IsWhitespace(t[i - 1]) && !IsWhitespace(t[i + 1])
  }

  /** The longest whitespace-free prefix of `s`. */
  function TakeWord(s: string): (w: string)
    ensures w <= s && NoWhitespace(w)
    ensures |w| < |s| ==> IsWhitespace(s[|w|])
    decreases |s|
  {
    if s == [] || IsWhitespace(s[0]) then [] else [s[0]] + TakeWord(s[1..])
  }

  /** Python's `s.split()` with no separator: the maximal whitespace-free
      runs of `s`, in order. */
  function Words(s: string): (ws: seq<string>)
    ensures forall i :: 0 <= i < |ws| ==> IsWord(ws[i])
    decreases |s|
  {
    if s == [] then []
    else if IsWhitespace(s[0]) then Words(s[1..])
    else
      var w := TakeWord(s);
      [w] + Words(s[|w|..])
  }

  /** Python's `" ".join(ws)`. */
  function Join(ws: seq<string>): string
  {
    if ws == [] then []
    else if |ws| == 1 then ws[0]
    else ws[0] + " " + Join(ws[1..])
  }

  function LStrip(s: string): string
  {
    if s != [] && IsWhitespace(s[0]) then LStrip(s[1..]) else s
  }

  function RStrip(s: string): string
  {
    if s != [] && IsWhitespace(s[|s| - 1]) then RStrip(s[..|s| - 1]) else s
  }

  /** Python's `s.strip()`: drop leading and trailing whitespace. */
  function Strip(s: string): string
  {
    RStrip(LStrip(s))
  }

  /** `clean_text` (app.py:30-32). */
  function CleanText(raw: string): string
  {
    Strip(Join(Words(raw)))
  }

  /** The length gate of `fetch_url_text` (app.py:48-51): the cleaned page
      text, or `None` when it is shorter than `MinTextLength`. */
  function AcceptText(raw: string): (r: Option<string>)
    ensures r.None? <==> |CleanText(raw)| < MinTextLength
    ensures r.Some? ==> r.value == CleanText(raw) && |r.value| >= MinTextLength
  {
    var cleaned := CleanText(raw);
    if |cleaned| < MinTextLength then None else Some(cleaned)
  }

  // ---------------------------------------------------------------------
  // Properties of clean_text

  /** Stripping changes nothing when there is no whitespace at either end. */
  lemma StripUnchanged(t: string)
    requires t == [] || (!IsWhitespace(t[0]) && !IsWhitespace(t[|t| - 1]))
    ensures Strip(t) == t
  {
  }

  /** Joining words with single spaces gives normalised text. */
  lemma {:induction false} JoinNormalized(ws: seq<string>)
    requires forall i :: 0 <= i < |ws| ==> IsWord(ws[i])
    ensures Normalized(Join(ws))
    ensures ws != [] ==> ws[0] <= Join(ws)
  {
    if |ws| > 1 {
      JoinNormalized(ws[1..]);
      var w, rest := ws[0], Join(ws[1..]);
      var t := w + " " + rest;
      assert Join(ws) == t;
      forall i | 0 <= i < |t| && IsWhitespace(t[i])
        ensures t[i] == ' ' && 0 < i < |t| - 1 && !IsWhitespace(t[i - 1]) && !IsWhitespace(t[i + 1])
      {
        if i == |w| {
          assert t[i - 1] == w[|w| - 1];
          assert t[i + 1] == rest[0];
        } else if i > |w| {
          assert t[i] == rest[i - |w| - 1];
          if i - 1 == |w| {
            assert false;
          }
          assert t[i - 1] == rest[i - |w| - 2];
          assert t[i + 1] == rest[i - |w|];
        }
      }
    }
  }

  /** Normalised text has no whitespace at either end. */
  lemma NormalizedEnds(t: string)
    requires Normalized(t)
    ensures t == [] || (!IsWhitespace(t[0]) && !IsWhitespace(t[|t| - 1]))
  {
    if t != [] {
      if IsWhitespace(t[0]) { assert false; }
      if IsWhitespace(t[|t| - 1]) { assert false; }
    }
  }

  /** `clean_text` always produces normalised text: no leading or trailing
      whitespace, no run of two whitespace characters, no whitespace other
      than a space. */
  lemma CleanTextNormalized(raw: string)
    ensures Normalized(CleanText(raw))
    ensures CleanText(raw) == Join(Words(raw))
  {
    JoinNormalized(Words(raw));
    NormalizedEnds(Join(Words(raw)));
    StripUnchanged(Join(Words(raw)));
  }

  /** The longest whitespace-free prefix of `w + t` is `w` when `w` has no
      whitespace and `t` is empty or starts with whitespace. */
  lemma {:induction false} TakeWordOfWord(w: string, t: string)
    requires NoWhitespace(w)
    requires t == [] || IsWhitespace(t[0])
    ensures TakeWord(w + t) == w
  {
    if w != [] {
      assert (w + t)[1..] == w[1..] + t;
      TakeWordOfWord(w[1..], t);
    }
  }

  /** Splitting text made by joining words gives back those words. */
  lemma {:induction false} WordsOfJoin(ws: seq<string>)
    requires forall i :: 0 <= i < |ws| ==> IsWord(ws[i])
    ensures Words(Join(ws)) == ws
  {
    if |ws| == 1 {
      var w := ws[0];
      TakeWordOfWord(w, []);
      assert w + [] == w;
      assert w[|w|..] == [];
    } else if |ws| > 1 {
      var w, rest := ws[0], Join(ws[1..]);
      var t := w + (" " + rest);
      assert Join(ws) == t;
      TakeWordOfWord(w, " " + rest);
      assert t[|w|..] == " " + rest;
      assert (" " + rest)[1..] == rest;
      WordsOfJoin(ws[1..]);
    }
  }

  /** `clean_text` keeps the words of its input exactly, in order. */
  lemma CleanTextKeepsWords(raw: string)
    ensures Words(CleanText(raw)) == Words(raw)
  {
    CleanTextNormalized(raw);
    WordsOfJoin(Words(raw));
  }

  /** `clean_text` is idempotent. */
  lemma CleanTextIdempotent(raw: string)
    ensures CleanText(CleanText(raw)) == CleanText(raw)
  {
    CleanTextKeepsWords(raw);
  }

  /** The part of normalised text after its first space is normalised. */
  lemma NormalizedSuffix(t: string, k: nat)
    requires Normalized(t) && k < |t| && IsWhitespace(t[k])
    ensures Normalized(t[k + 1..]) && t[k + 1..] != [] && !IsWhitespace(t[k + 1])
  {
    var r := t[k + 1..];
    forall i | 0 <= i < |r| && IsWhitespace(r[i])
      ensures r[i] == ' ' && 0 < i < |r| - 1 && !IsWhitespace(r[i - 1]) && !IsWhitespace(r[i + 1])
    {
      assert r[i] == t[k + 1 + i];
    }
  }

  /** Splitting text that starts with a word: that word, then the words
      of the rest after the whitespace that ends it. */
  lemma WordsAfterFirstWord(t: string)
    requires t != [] && !IsWhitespace(t[0])
    ensures |TakeWord(t)| == |t| ==> Words(t) == [t]
    ensures |TakeWord(t)| < |t| ==> Words(t) == [TakeWord(t)] + Words(t[|TakeWord(t)| + 1..])
  {
    var w := TakeWord(t);
    if |w| == |t| {
      assert w == t;
      assert t[|w|..] == [];
    } else {
      assert t[|w|..][1..] == t[|w| + 1..];
    }
  }

  /** Normalised text that goes on past its first word is that word, one
      space, and a normalised rest that starts a new word. */
  lemma NormalizedSplit(t: string)
    requires Normalized(t) && t != []
    ensures !IsWhitespace(t[0])
    ensures |TakeWord(t)| < |t| ==>
      var rest := t[|TakeWord(t)| + 1..];
      && t == TakeWord(t) + " " + rest
      && Normalized(rest) && rest != [] && !IsWhitespace(rest[0])
  {
    NormalizedEnds(t);
    var w := TakeWord(t);
    if |w| < |t| {
      NormalizedSuffix(t, |w|);
      assert t == t[..|w|] + [t[|w|]] + t[|w| + 1..];
    }
  }

  /** Joining a word in front of a non-empty list of words. */
  lemma JoinCons(w: string, ws: seq<string>)
    requires ws != []
    ensures Join([w] + ws) == w + " " + Join(ws)
  {
    assert ([w] + ws)[1..] == ws;
  }

  /** Splitting skips whitespace before a word: a leading whitespace
      character, and so every run of them, contributes nothing. */
  lemma WordsSkipsWhitespace(c: char, s: string)
    requires IsWhitespace(c)
    ensures Words([c] + s) == Words(s)
  {
    assert ([c] + s)[1..] == s;
  }

  /** Normalised text is the join of its own words. */
  lemma {:induction false} JoinWordsOfNormalized(t: string)
    requires Normalized(t)
    ensures Join(Words(t)) == t
    decreases |t|
  {
    if t != [] {
      NormalizedSplit(t);
      WordsAfterFirstWord(t);
      var w := TakeWord(t);
      if |w| < |t| {
        var rest := t[|w| + 1..];
        JoinWordsOfNormalized(rest);
        WordsAfterFirstWord(rest);
        JoinCons(w, Words(rest));
      }
    }
  }

  /** `clean_text` leaves a string unchanged exactly when it is already
      normalised. */
  lemma CleanTextFixpoints(t: string)
    ensures CleanText(t) == t <==> Normalized(t)
  {
    CleanTextNormalized(t);
    if Normalized(t) {
      JoinWordsOfNormalized(t);
    }
  }

  /** What the gate lets through is normalised, at least `MinTextLength`
      long, and passes the gate again unchanged. */
  lemma AcceptedTextProperties(raw: string)
    requires AcceptText(raw).Some?
    ensures Normalized(AcceptText(raw).value)
    ensures AcceptText(AcceptText(raw).value) == AcceptText(raw)
  {
    CleanTextNormalized(raw);
    CleanTextIdempotent(raw);
  }
}
