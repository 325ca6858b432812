/** Character-level text handling of the homograph classifier: the base form of a
    stress-marked candidate, and the punctuation clean-up applied to every context
    before it is paired with a candidate. */
module Text {

  /** The stress marker embedded in a candidate variant, placed after the stressed vowel. */
  const Marker: char := '+'

  /** The base form of a candidate: the string with every marker removed
      (Python's `word.replace('+', '')`). */
  function BaseForm(w: string): (b: string)
    ensures Marker !in b
    ensures |b| <= |w|
  {
    if w == [] then []
    else (if w[0] == Marker then [] else [w[0]]) + BaseForm(w[1..])
  }

  /** Removing markers distributes over concatenation, so it keeps every other
      character and their order. */
  lemma {:induction false} BaseFormConcat(a: string, b: string)
    ensures BaseForm(a + b) == BaseForm(a) + BaseForm(b)
  {
    if a == [] {
      assert a + b == b;
    } else {
      assert (a + b)[1..] == a[1..] + b;
      BaseFormConcat(a[1..], b);
    }
  }

  /** A string without markers is its own base form; in particular BaseForm is idempotent. */
  lemma {:induction false} BaseFormUnmarked(w: string)
    requires Marker !in w
    ensures BaseForm(w) == w
  {
    if w != [] {
      assert w[0] in w;
      assert forall c :: c in w[1..] ==> c in w;
      BaseFormUnmarked(w[1..]);
    }
  }

  /** Every character Python's regular-expression class `\s` matches in a str
      pattern (the characters for which `str.isspace()` holds). */
  predicate IsSpace(c: char)
  {
    c == '\t' || c == '\n' || c == '\U{0B}' || c == '\U{0C}' || c == '\r'
    || ('\U{1C}' <= c <= '\U{1F}') || c == ' ' || c == '\U{85}' || c == '\U{A0}'
    || c == '\U{1680}' || ('\U{2000}' <= c <= '\U{200A}')
    || c == '\U{2028}' || c == '\U{2029}' || c == '\U{202F}' || c == '\U{205F}'
    || c == '\U{3000}'
  }

  /** The punctuation marks the lookahead `(?=[,.?!:;…])` accepts. */
  predicate IsPunct(c: char)
  {
    c == ',' || c == '.' || c == '?' || c == '!' || c == ':' || c == ';' || c == '\U{2026}'
  }

  /** `s` starts with zero or more whitespace characters followed by a punctuation mark. */
  predicate RunReachesPunct(s: string)
  {
    |s| > 0 && (IsPunct(s[0]) || (IsSpace(s[0]) && RunReachesPunct(s[1..])))
  }

  /** The context preprocessing `re.sub(r'\s+(?=(?:[,.?!:;…]))', '', text)`: a
      whitespace character is deleted exactly when the whitespace run it belongs to
      is immediately followed by one of the punctuation marks. */
  function Preprocess(s: string): (r: string)
    ensures |r| <= |s|
    ensures forall c :: c in r ==> c in s
  {
    if s == [] then []
    else if IsSpace(s[0]) && RunReachesPunct(s[1..]) then Preprocess(s[1..])
    else [s[0]] + Preprocess(s[1..])
  }

  /** An independent reference for the preprocessing: a left-to-right scan that
      holds back the pending whitespace run and drops it when a punctuation mark
      arrives, flushes it before any other character, and keeps it at the end. */
  function ScanDropSpaceBeforePunct(s: string, pending: string, done: string): string
    decreases |s|
  {
    if s == [] then done + pending
    else if IsSpace(s[0]) then ScanDropSpaceBeforePunct(s[1..], pending + [s[0]], done)
    else if IsPunct(s[0]) then ScanDropSpaceBeforePunct(s[1..], [], done + [s[0]])
    else ScanDropSpaceBeforePunct(s[1..], [], done + pending + [s[0]])
  }

  lemma {:induction false} ScanInvariant(s: string, pending: string, done: string)
    ensures ScanDropSpaceBeforePunct(s, pending, done)
         == done + (if RunReachesPunct(s) then [] else pending) + Preprocess(s)
    decreases |s|
  {
    if s != [] {
      var c := s[0];
      if IsSpace(c) {
        ScanInvariant(s[1..], pending + [c], done);
      } else if IsPunct(c) {
        ScanInvariant(s[1..], [], done + [c]);
      } else {
        ScanInvariant(s[1..], [], done + pending + [c]);
      }
    }
  }

  /** The preprocessing agrees with the scanning reference on every input. */
  lemma PreprocessIsScan(s: string)
    ensures Preprocess(s) == ScanDropSpaceBeforePunct(s, [], [])
  {
    ScanInvariant(s, [], []);
  }

  /** The non-whitespace characters of a string, in order. */
  function NonSpace(s: string): string
  {
    if s == [] then [] else (if IsSpace(s[0]) then [] else [s[0]]) + NonSpace(s[1..])
  }

  /** The preprocessing deletes whitespace only: every other character survives, in order. */
  lemma {:induction false} PreprocessKeepsNonSpace(s: string)
    ensures NonSpace(Preprocess(s)) == NonSpace(s)
  {
    if s != [] {
      PreprocessKeepsNonSpace(s[1..]);
      if !(IsSpace(s[0]) && RunReachesPunct(s[1..])) {
        assert ([s[0]] + Preprocess(s[1..]))[1..] == Preprocess(s[1..]);
      }
    }
  }

  /** No whitespace character stands directly before a punctuation mark. */
  predicate NoSpaceBeforePunct(s: string)
  {
    forall i :: 0 <= i < |s| - 1 ==> !(IsSpace(s[i]) && IsPunct(s[i + 1]))
  }

  /** When the run at the head of `s` does not reach a punctuation mark, the
      preprocessed text does not start with one. */
  lemma HeadNotPunct(s: string)
    requires !RunReachesPunct(s)
    ensures Preprocess(s) == [] || !IsPunct(Preprocess(s)[0])
  {
  }

  /** After preprocessing, no whitespace directly precedes a punctuation mark. */
  lemma {:induction false} PreprocessRemovesSpaceBeforePunct(s: string)
    ensures NoSpaceBeforePunct(Preprocess(s))
  {
    if s != [] {
      PreprocessRemovesSpaceBeforePunct(s[1..]);
      var rest := Preprocess(s[1..]);
      if !(IsSpace(s[0]) && RunReachesPunct(s[1..])) {
        var r := [s[0]] + rest;
        if IsSpace(s[0]) {
          HeadNotPunct(s[1..]);
        }
        forall i | 0 <= i < |r| - 1
          ensures !(IsSpace(r[i]) && IsPunct(r[i + 1]))
        {
          if i > 0 {
            assert r[i] == rest[i - 1] && r[i + 1] == rest[i];
          }
        }
      }
    }
  }

  /** A whitespace character followed by a run that reaches a punctuation mark puts
      some whitespace directly before that mark. */
  lemma {:induction false} RunHasSpaceBeforePunct(c: char, t: string)
    requires IsSpace(c) && RunReachesPunct(t)
    ensures !NoSpaceBeforePunct([c] + t)
    decreases |t|
  {
    var s := [c] + t;
    if IsPunct(t[0]) {
      assert IsSpace(s[0]) && IsPunct(s[1]);
    } else {
      RunHasSpaceBeforePunct(t[0], t[1..]);
      var i :| 0 <= i < |t| - 1 && IsSpace(([t[0]] + t[1..])[i]) && IsPunct(([t[0]] + t[1..])[i + 1]);
      assert [t[0]] + t[1..] == t;
      assert s[i + 1] == t[i] && s[i + 2] == t[i + 1];
    }
  }

  /** A text with no whitespace before a punctuation mark is left unchanged. */
  lemma {:induction false} PreprocessFixesClean(s: string)
    requires NoSpaceBeforePunct(s)
    ensures Preprocess(s) == s
  {
    if s != [] {
      if IsSpace(s[0]) && RunReachesPunct(s[1..]) {
        assert [s[0]] + s[1..] == s;
        RunHasSpaceBeforePunct(s[0], s[1..]);
        assert false;
      }
      PreprocessFixesClean(s[1..]);
    }
  }

  /** Preprocessing twice is preprocessing once. */
  lemma PreprocessIdempotent(s: string)
    ensures Preprocess(Preprocess(s)) == Preprocess(s)
  {
    PreprocessRemovesSpaceBeforePunct(s);
    PreprocessFixesClean(Preprocess(s));
  }
}
