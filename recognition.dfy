/** What the bot does with one transcribed utterance of a prisoner: the text
    is stripped, `,` `!` `?` become `.`, the text is cut at every `.` into
    stripped pieces, the whole normalised text is added as a last candidate,
    and each candidate is scored against the escape phrase and the forbidden
    lines. The similarity score is a parameter (`ratio`) about which nothing
    is known but its range. */
module Recognition {
  import opened Common

  /** A similarity score, as the fuzzy matcher returns it. */
  type Score = x: int | 0 <= x <= 100

  const EscapeThreshold: int := 80
  const WarnThreshold: int := 50
  const ForbiddenThreshold: int := 80

  // ----- Stripping --------------------------------------------------------

  /** Python's notion of a whitespace character (`str.isspace`): the
      controls 9 to 13 and 28 to 31, the space, U+0085, U+00A0, U+1680,
      U+2000 to U+200A, U+2028, U+2029, U+202F, U+205F and U+3000. */
  predicate IsSpace(c: char) {
    var n := c as int;
    (9 <= n <= 13) || (28 <= n <= 32) || n == 0x85 || n == 0xA0 || n == 0x1680
    || (0x2000 <= n <= 0x200A) || n == 0x2028 || n == 0x2029 || n == 0x202F
    || n == 0x205F || n == 0x3000
  }

  /** Every character of `s` is whitespace. */
  predicate AllSpace(s: string) {
    forall k :: 0 <= k < |s| ==> IsSpace(s[k])
  }

  /** The first index at or after `i` that is not whitespace, or `|s|`. */
  function SkipSpaces(s: string, i: nat): (n: nat)
    requires i <= |s|
    ensures i <= n <= |s|
    ensures forall k :: i <= k < n ==> IsSpace(s[k])
    ensures n < |s| ==> !IsSpace(s[n])
    decreases |s| - i
  {
    if i < |s| && IsSpace(s[i]) then SkipSpaces(s, i + 1) else i
  }

  /** The end of `s[lo..j]` once its trailing whitespace is dropped. */
  function SkipSpacesBack(s: string, lo: nat, j: nat): (n: nat)
    requires lo <= j <= |s|
    ensures lo <= n <= j
    ensures forall k :: n <= k < j ==> IsSpace(s[k])
    ensures n > lo ==> !IsSpace(s[n - 1])
    decreases j
  {
    if j > lo && IsSpace(s[j - 1]) then SkipSpacesBack(s, lo, j - 1) else j
  }

  /** Where `s.strip()` begins. */
  function StripStart(s: string): nat {
    SkipSpaces(s, 0)
  }

  /** Where `s.strip()` ends. */
  function StripEnd(s: string): nat {
    SkipSpacesBack(s, StripStart(s), |s|)
  }

  /** `s.strip()`: `s` without its leading and trailing whitespace. */
  function Strip(s: string): string {
    s[StripStart(s)..StripEnd(s)]
  }

  /** A stripped string is a piece of the original cut out between two runs of
      whitespace, and it neither begins nor ends with whitespace. */
  lemma StripIsTrimmedSlice(s: string)
    ensures var i, j := StripStart(s), StripEnd(s);
      && i <= j <= |s| && Strip(s) == s[i..j]
      && (forall k :: 0 <= k < i ==> IsSpace(s[k]))
      && (forall k :: j <= k < |s| ==> IsSpace(s[k]))
    ensures Strip(s) != [] ==> !IsSpace(Strip(s)[0]) && !IsSpace(Strip(s)[|Strip(s)| - 1])
  {
  }

  /** The utterance is blank, and so dropped, exactly when every character
      is whitespace. */
  lemma StripBlankIff(s: string)
    ensures Strip(s) == [] <==> AllSpace(s)
  {
    var i, j := StripStart(s), StripEnd(s);
    if Strip(s) == [] {
      assert i == j;
    } else {
      assert s[i] == Strip(s)[0];
    }
  }

  // ----- Normalising and splitting -----------------------------------------

  /** `s.replace(from, to)` for one-character strings. */
  function Replace(s: string, from: char, to: char): (r: string)
    ensures |r| == |s|
    ensures forall k :: 0 <= k < |s| ==> r[k] == (if s[k] == from then to else s[k])
    decreases |s|
  {
    if s == [] then []
    else [if s[0] == from then to else s[0]] + Replace(s[1..], from, to)
  }

  predicate IsBreak(c: char) {
    c == ',' || c == '!' || c == '?'
  }

  /** The three replacements of `,`, `!` and `?` by `.`, in that order. */
  function Normalize(s: string): string {
    Replace(Replace(Replace(s, ',', '.'), '!', '.'), '?', '.')
  }

  /** Normalising keeps the length, turns exactly the breaks into `.` and
      leaves no break behind. */
  lemma NormalizeSpec(s: string)
    ensures |Normalize(s)| == |s|
    ensures forall k :: 0 <= k < |s| ==> Normalize(s)[k] == if IsBreak(s[k]) then '.' else s[k]
    ensures forall k :: 0 <= k < |s| ==> !IsBreak(Normalize(s)[k])
  {
  }

  /** `s.split(sep)`: the pieces between separators, empty ones included;
      there is always at least one piece. */
  function Split(s: string, sep: char): (r: seq<string>)
    ensures |r| >= 1
    decreases |s|
  {
    if s == [] then [[]]
    else
      var rest := Split(s[1..], sep);
      if s[0] == sep then [[]] + rest
      else [[s[0]] + rest[0]] + rest[1..]
  }

  /** `sep.join(pieces)`. */
  function Join(pieces: seq<string>, sep: char): string
    decreases |pieces|
  {
    if pieces == [] then []
    else if |pieces| == 1 then pieces[0]
    else pieces[0] + [sep] + Join(pieces[1..], sep)
  }

  lemma JoinCons(p: string, rest: seq<string>, sep: char)
    requires |rest| >= 1
    ensures Join([p] + rest, sep) == p + [sep] + Join(rest, sep)
  {
    assert ([p] + rest)[1..] == rest;
  }

  /** Putting a character in front of the first piece puts it in front of
      the joined text. */
  lemma JoinExtendFirst(c: char, rest: seq<string>, sep: char)
    requires |rest| >= 1
    ensures Join([[c] + rest[0]] + rest[1..], sep) == [c] + Join(rest, sep)
  {
    if |rest| > 1 {
      JoinCons([c] + rest[0], rest[1..], sep);
      JoinCons(rest[0], rest[1..], sep);
      assert [rest[0]] + rest[1..] == rest;
    } else {
      assert [[c] + rest[0]] + rest[1..] == [[c] + rest[0]];
    }
  }

  /** Joining the pieces with the separator gives the text back. */
  lemma {:induction false} SplitJoin(s: string, sep: char)
    ensures Join(Split(s, sep), sep) == s
    decreases |s|
  {
    if s != [] {
      var rest := Split(s[1..], sep);
      SplitJoin(s[1..], sep);
      assert s == [s[0]] + s[1..];
      if s[0] == sep {
        JoinCons([], rest, sep);
      } else {
        JoinExtendFirst(s[0], rest, sep);
      }
    }
  }

  /** No piece contains the separator, and there is one piece more than
      there are separators. */
  lemma {:induction false} SplitPieces(s: string, sep: char)
    ensures forall i :: 0 <= i < |Split(s, sep)| ==> sep !in Split(s, sep)[i]
    ensures |Split(s, sep)| == multiset(s)[sep] + 1
    decreases |s|
  {
    if s != [] {
      SplitPieces(s[1..], sep);
      assert s == [s[0]] + s[1..];
      assert multiset(s) == multiset{s[0]} + multiset(s[1..]);
      var rest := Split(s[1..], sep);
      if s[0] != sep {
        var r := Split(s, sep);
        forall i | 0 <= i < |r| ensures sep !in r[i] {
          if i == 0 {
            assert r[0] == [s[0]] + rest[0];
          } else {
            assert r[i] == rest[i];
          }
        }
      }
    }
  }

  /** Every piece stripped, as the list comprehension does. */
  function StripAll(pieces: seq<string>): (r: seq<string>)
    ensures |r| == |pieces|
    ensures forall i :: 0 <= i < |pieces| ==> r[i] == Strip(pieces[i])
  {
    seq(|pieces|, i requires 0 <= i < |pieces| => Strip(pieces[i]))
  }

  /** The candidate sentences of an (already stripped) utterance. */
  function Candidates(text: string): seq<string> {
    var normal := Normalize(text);
    StripAll(Split(normal, '.')) + [normal]
  }

  /** There is one candidate per `.`-separated piece plus the whole
      normalised text last; every other candidate is free of `.`, `,`, `!`
      and `?` and of surrounding whitespace. */
  lemma CandidatesShape(text: string)
    ensures var c := Candidates(text);
      |c| == multiset(Normalize(text))['.'] + 2
      && c[|c| - 1] == Normalize(text)
      && forall i :: 0 <= i < |c| - 1 ==>
           ('.' !in c[i] && (forall k :: 0 <= k < |c[i]| ==> !IsBreak(c[i][k]))
            && (c[i] != [] ==> !IsSpace(c[i][0]) && !IsSpace(c[i][|c[i]| - 1])))
  {
    var normal := Normalize(text);
    var pieces := Split(normal, '.');
    var c := Candidates(text);
    SplitPieces(normal, '.');
    assert |c| == |pieces| + 1;
    forall i | 0 <= i < |c| - 1
      ensures '.' !in c[i] && (forall k :: 0 <= k < |c[i]| ==> !IsBreak(c[i][k]))
      ensures c[i] != [] ==> !IsSpace(c[i][0]) && !IsSpace(c[i][|c[i]| - 1])
    {
      assert c[i] == Strip(pieces[i]);
      StripChars(pieces[i]);
      StripIsTrimmedSlice(pieces[i]);
      PieceClean(text, i);
      forall k | 0 <= k < |c[i]| ensures !IsBreak(c[i][k]) {
        assert c[i][k] in c[i];
      }
    }
  }

  /** Stripping only removes characters. */
  lemma StripChars(p: string)
    ensures forall x :: x in Strip(p) ==> x in p
  {
    var i, j := StripStart(p), StripEnd(p);
    forall x | x in Strip(p) ensures x in p {
      var k :| 0 <= k < |Strip(p)| && Strip(p)[k] == x;
      assert p[i + k] == x;
    }
  }

  /** A piece of the normalised text holds neither `.` nor a break. */
  lemma PieceClean(text: string, i: nat)
    requires i < |Split(Normalize(text), '.')|
    ensures forall x :: x in Split(Normalize(text), '.')[i] ==> x != '.' && !IsBreak(x)
  {
    var p := Split(Normalize(text), '.')[i];
    SplitPieces(Normalize(text), '.');
    forall x | x in p ensures x != '.' && !IsBreak(x) {
      var k :| 0 <= k < |p| && p[k] == x;
      PieceOfNormalizedHasNoBreak(text, i, k);
    }
  }

  /** No character of a piece of the normalised text is a break. */
  lemma PieceOfNormalizedHasNoBreak(text: string, i: nat, k: nat)
    requires i < |Split(Normalize(text), '.')| && k < |Split(Normalize(text), '.')[i]|
    ensures !IsBreak(Split(Normalize(text), '.')[i][k])
  {
    var normal := Normalize(text);
    PieceCharFromText(normal, '.', i, k);
    NormalizeSpec(text);
    var m :| 0 <= m < |normal| && normal[m] == Split(normal, '.')[i][k];
  }

  /** Every character of a piece is a character of the split text. */
  lemma {:induction false} PieceCharFromText(s: string, sep: char, i: nat, k: nat)
    requires i < |Split(s, sep)| && k < |Split(s, sep)[i]|
    ensures Split(s, sep)[i][k] in s
    decreases |s|
  {
    var rest := Split(s[1..], sep);
    if s[0] == sep {
      PieceCharFromText(s[1..], sep, i - 1, k);
    } else if i == 0 {
      if k > 0 {
        PieceCharFromText(s[1..], sep, 0, k - 1);
      }
    } else {
      assert Split(s, sep)[i] == rest[i];
      PieceCharFromText(s[1..], sep, i, k);
    }
  }

  // ----- The decision rule ---------------------------------------------------

  /** What one candidate sentence leads to: the escape (pardon), a warning
      that the escape phrase was nearly said, or a rebuke for a forbidden
      line. */
  datatype Reaction =
    | Escaped(sentence: string, score: Score)
    | Warned(sentence: string, score: Score)
    | Rebuked(sentence: string, line: string, score: Score)

  /** The first forbidden line, from index `from` on, that the sentence
      matches at or above the forbidden threshold (the inner loop's `break`). */
  function FirstForbiddenFrom(sentence: string, lines: seq<string>, ratio: (string, string) -> Score, from: nat): (r: Option<nat>)
    requires from <= |lines|
    ensures r.Some? ==> from <= r.value < |lines| && ratio(sentence, lines[r.value]) >= ForbiddenThreshold
    ensures r.Some? ==> forall j :: from <= j < r.value ==> ratio(sentence, lines[j]) < ForbiddenThreshold
    ensures r.None? ==> forall j :: from <= j < |lines| ==> ratio(sentence, lines[j]) < ForbiddenThreshold
    decreases |lines| - from
  {
    if from == |lines| then None
    else if ratio(sentence, lines[from]) >= ForbiddenThreshold then Some(from)
    else FirstForbiddenFrom(sentence, lines, ratio, from + 1)
  }

  /** The reactions to one candidate sentence taken on its own. */
  function Verdict(sentence: string, phrase: string, lines: seq<string>, ratio: (string, string) -> Score): seq<Reaction> {
    var score := ratio(sentence, phrase);
    if score >= EscapeThreshold then [Escaped(sentence, score)]
    else
      (if score >= WarnThreshold then [Warned(sentence, score)] else [])
      + match FirstForbiddenFrom(sentence, lines, ratio, 0)
        case None => []
        case Some(j) => [Rebuked(sentence, lines[j], ratio(sentence, lines[j]))]
  }

  /** One sentence yields the escape alone when it is close enough to the
      escape phrase (its forbidden check is skipped); otherwise a warning
      exactly when the score is in the warning band, followed by at most one
      rebuke, for the first forbidden line it matches. */
  lemma VerdictSpec(sentence: string, phrase: string, lines: seq<string>, ratio: (string, string) -> Score)
    ensures var v := Verdict(sentence, phrase, lines, ratio);
      var score := ratio(sentence, phrase);
      (score >= EscapeThreshold ==> v == [Escaped(sentence, score)])
      && (score < EscapeThreshold ==>
            |v| <= 2
            && (forall i :: 0 <= i < |v| ==> !v[i].Escaped?)
            && ((exists i :: 0 <= i < |v| && v[i].Warned?) <==> score >= WarnThreshold)
            && ((exists i :: 0 <= i < |v| && v[i].Rebuked?) <==>
                  exists j :: 0 <= j < |lines| && ratio(sentence, lines[j]) >= ForbiddenThreshold)
            && (forall i :: 0 <= i < |v| && v[i].Rebuked? ==>
                  exists j :: 0 <= j < |lines| && v[i].line == lines[j] && v[i].score >= ForbiddenThreshold
                    && forall j' :: 0 <= j' < j ==> ratio(sentence, lines[j']) < ForbiddenThreshold))
  {
    var score := ratio(sentence, phrase);
    if score < EscapeThreshold {
      var f := FirstForbiddenFrom(sentence, lines, ratio, 0);
      var v := Verdict(sentence, phrase, lines, ratio);
      var w: seq<Reaction> := if score >= WarnThreshold then [Warned(sentence, score)] else [];
      var b: seq<Reaction> := if f.Some? then [Rebuked(sentence, lines[f.value], ratio(sentence, lines[f.value]))] else [];
      assert v == w + b;
      assert forall i :: 0 <= i < |v| ==> (v[i].Warned? <==> i < |w|) && (v[i].Rebuked? <==> i >= |w|);
      if score >= WarnThreshold {
        assert v[0].Warned?;
      }
      if f.Some? {
        assert v[|w|].Rebuked?;
      }
    }
  }

  /** The reactions to all candidates, in order, up to and including the
      first escape, after which nothing more is looked at. */
  function React(cands: seq<string>, phrase: string, lines: seq<string>, ratio: (string, string) -> Score): seq<Reaction>
    decreases |cands|
  {
    if cands == [] then []
    else if ratio(cands[0], phrase) >= EscapeThreshold then Verdict(cands[0], phrase, lines, ratio)
    else Verdict(cands[0], phrase, lines, ratio) + React(cands[1..], phrase, lines, ratio)
  }

  /** Independent reference: every candidate's verdict, one after another,
      with no early stop. */
  function AllVerdicts(cands: seq<string>, phrase: string, lines: seq<string>, ratio: (string, string) -> Score): seq<Reaction>
    decreases |cands|
  {
    if cands == [] then [] else Verdict(cands[0], phrase, lines, ratio) + AllVerdicts(cands[1..], phrase, lines, ratio)
  }

  /** Without a candidate close enough to the escape phrase every candidate
      is judged. */
  lemma {:induction false} ReactJudgesAll(cands: seq<string>, phrase: string, lines: seq<string>, ratio: (string, string) -> Score)
    requires forall i :: 0 <= i < |cands| ==> ratio(cands[i], phrase) < EscapeThreshold
    ensures React(cands, phrase, lines, ratio) == AllVerdicts(cands, phrase, lines, ratio)
    decreases |cands|
  {
    if cands != [] {
      assert ratio(cands[0], phrase) < EscapeThreshold;
      assert forall i :: 0 <= i < |cands[1..]| ==> cands[1..][i] == cands[i + 1];
      ReactJudgesAll(cands[1..], phrase, lines, ratio);
    }
  }

  /** With a candidate close enough to the escape phrase, the candidates
      before the first such are judged, then that candidate escapes and
      processing ends. */
  lemma {:induction false} ReactStopsAtFirstEscape(cands: seq<string>, phrase: string, lines: seq<string>, ratio: (string, string) -> Score, k: nat)
    requires k < |cands| && ratio(cands[k], phrase) >= EscapeThreshold
    requires forall i :: 0 <= i < k ==> ratio(cands[i], phrase) < EscapeThreshold
    ensures React(cands, phrase, lines, ratio)
              == AllVerdicts(cands[..k], phrase, lines, ratio) + [Escaped(cands[k], ratio(cands[k], phrase))]
    decreases k
  {
    if k == 0 {
      assert cands[..0] == [];
    } else {
      assert ratio(cands[0], phrase) < EscapeThreshold;
      assert cands[1..][k - 1] == cands[k];
      assert forall i :: 0 <= i < k - 1 ==> cands[1..][i] == cands[i + 1];
      ReactStopsAtFirstEscape(cands[1..], phrase, lines, ratio, k - 1);
      assert cands[..k][1..] == cands[1..][..k - 1];
      assert cands[..k][0] == cands[0];
    }
  }

  /** Some reaction is an escape. */
  predicate HasEscape(rs: seq<Reaction>) {
    exists i :: 0 <= i < |rs| && rs[i].Escaped?
  }

  /** No reaction but the last is an escape. */
  predicate EscapeOnlyLast(rs: seq<Reaction>) {
    forall i :: 0 <= i < |rs| - 1 ==> !rs[i].Escaped?
  }

  lemma HasEscapeAppend(a: seq<Reaction>, b: seq<Reaction>)
    ensures HasEscape(a + b) <==> HasEscape(a) || HasEscape(b)
  {
    if HasEscape(a + b) {
      var i :| 0 <= i < |a + b| && (a + b)[i].Escaped?;
      if i < |a| {
        assert a[i] == (a + b)[i];
      } else {
        assert b[i - |a|] == (a + b)[i];
      }
    }
    if HasEscape(a) {
      var i :| 0 <= i < |a| && a[i].Escaped?;
      assert (a + b)[i] == a[i];
    }
    if HasEscape(b) {
      var i :| 0 <= i < |b| && b[i].Escaped?;
      assert (a + b)[|a| + i] == b[i];
    }
  }

  lemma EscapeOnlyLastAppend(a: seq<Reaction>, b: seq<Reaction>)
    requires !HasEscape(a) && EscapeOnlyLast(b) && b != []
    ensures EscapeOnlyLast(a + b)
  {
    assert forall i :: 0 <= i < |a| ==> (a + b)[i] == a[i];
    assert forall i :: |a| <= i < |a + b| ==> (a + b)[i] == b[i - |a|];
  }

  /** A verdict holds an escape exactly when the sentence reaches the
      escape threshold, and then it is that escape alone. */
  lemma VerdictEscapes(sentence: string, phrase: string, lines: seq<string>, ratio: (string, string) -> Score)
    ensures HasEscape(Verdict(sentence, phrase, lines, ratio)) <==> ratio(sentence, phrase) >= EscapeThreshold
    ensures EscapeOnlyLast(Verdict(sentence, phrase, lines, ratio))
  {
    VerdictSpec(sentence, phrase, lines, ratio);
    if ratio(sentence, phrase) >= EscapeThreshold {
      assert Verdict(sentence, phrase, lines, ratio)[0].Escaped?;
    }
  }

  /** An escape is always the last reaction, so at most one happens. */
  lemma {:induction false} ReactEscapeIsLast(cands: seq<string>, phrase: string, lines: seq<string>, ratio: (string, string) -> Score)
    ensures EscapeOnlyLast(React(cands, phrase, lines, ratio))
    decreases |cands|
  {
    if cands != [] {
      VerdictEscapes(cands[0], phrase, lines, ratio);
      if ratio(cands[0], phrase) < EscapeThreshold {
        ReactEscapeIsLast(cands[1..], phrase, lines, ratio);
        var v := Verdict(cands[0], phrase, lines, ratio);
        var tail := React(cands[1..], phrase, lines, ratio);
        if tail != [] {
          EscapeOnlyLastAppend(v, tail);
        } else {
          assert React(cands, phrase, lines, ratio) == v;
        }
      }
    }
  }

  /** An escape happens exactly when some candidate reaches the escape
      threshold. */
  lemma {:induction false} ReactEscapeIff(cands: seq<string>, phrase: string, lines: seq<string>, ratio: (string, string) -> Score)
    ensures HasEscape(React(cands, phrase, lines, ratio)) <==>
              (exists k :: 0 <= k < |cands| && ratio(cands[k], phrase) >= EscapeThreshold)
    decreases |cands|
  {
    if cands != [] {
      VerdictEscapes(cands[0], phrase, lines, ratio);
      if ratio(cands[0], phrase) < EscapeThreshold {
        ReactEscapeIff(cands[1..], phrase, lines, ratio);
        HasEscapeAppend(Verdict(cands[0], phrase, lines, ratio), React(cands[1..], phrase, lines, ratio));
        if exists k :: 0 <= k < |cands| && ratio(cands[k], phrase) >= EscapeThreshold {
          var k :| 0 <= k < |cands| && ratio(cands[k], phrase) >= EscapeThreshold;
          assert cands[1..][k - 1] == cands[k];
        }
        if exists k :: 0 <= k < |cands[1..]| && ratio(cands[1..][k], phrase) >= EscapeThreshold {
          var k :| 0 <= k < |cands[1..]| && ratio(cands[1..][k], phrase) >= EscapeThreshold;
          assert cands[k + 1] == cands[1..][k];
        }
      }
    }
  }
}
