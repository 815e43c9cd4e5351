/** The input pipeline shared by the three entry points of the page: a blank-input check, then
    splitting on runs of commas and whitespace, dropping empty pieces, parsing each trimmed
    piece as a number and dropping those that are not numbers. `parseFloat` is a parameter. */
module Parser {
  import opened Wrappers
  import Seqs

  /** The two input errors the page reports with an alert. */
  datatype InputError =
    | EmptyInput      // the text field is blank
    | NoValidData     // no token parsed to a number

  /** The characters of JavaScript's `\s` class, which are also those `String.prototype.trim` removes. */
  predicate IsWhitespace(c: char) {
    || c == ' ' || c == '\t' || c == '\n' || c == '\r' || c == '\U{000B}' || c == '\U{000C}'
    || c == '\U{00A0}' || c == '\U{1680}' || ('\U{2000}' <= c <= '\U{200A}')
    || c == '\U{2028}' || c == '\U{2029}' || c == '\U{202F}' || c == '\U{205F}'
    || c == '\U{3000}' || c == '\U{FEFF}'
  }

  /** The character class `[,\s\n]` of the split pattern. */
  predicate IsSeparator(c: char) {
    c == ',' || IsWhitespace(c)
  }

  predicate SeparatorFree(t: string) {
    forall m :: 0 <= m < |t| ==> !IsSeparator(t[m])
  }

  predicate AllWhitespace(s: string) {
    forall m :: 0 <= m < |s| ==> IsWhitespace(s[m])
  }

  function TrimStart(s: string): (r: string)
    decreases |s|
  {
    if s != [] && IsWhitespace(s[0]) then TrimStart(s[1..]) else s
  }

  function TrimEnd(s: string): (r: string)
    decreases |s|
  {
    if s != [] && IsWhitespace(s[|s| - 1]) then TrimEnd(s[..|s| - 1]) else s
  }

  /** `String.prototype.trim`. */
  function Trim(s: string): string {
    TrimEnd(TrimStart(s))
  }

  /** Trimming leaves nothing exactly when the text is whitespace only. */
  lemma {:induction false} TrimEmptyIff(s: string)
    ensures Trim(s) == [] <==> AllWhitespace(s)
  {
    TrimStartEmptyIff(s);
    var t := TrimStart(s);
    if t != [] {
      TrimStartKeepsFirst(s);
      TrimEndNonEmpty(t);
    }
  }

  lemma {:induction false} TrimStartEmptyIff(s: string)
    ensures TrimStart(s) == [] <==> AllWhitespace(s)
    decreases |s|
  {
    if s != [] && IsWhitespace(s[0]) {
      TrimStartEmptyIff(s[1..]);
      assert AllWhitespace(s) <==> AllWhitespace(s[1..]) by {
        forall m | 0 < m < |s| ensures s[m] == s[1..][m - 1] { }
      }
    }
  }

  lemma {:induction false} TrimStartKeepsFirst(s: string)
    requires TrimStart(s) != []
    ensures !IsWhitespace(TrimStart(s)[0])
    decreases |s|
  {
    if s != [] && IsWhitespace(s[0]) {
      TrimStartKeepsFirst(s[1..]);
    }
  }

  lemma {:induction false} TrimEndNonEmpty(t: string)
    requires t != [] && !IsWhitespace(t[0])
    ensures TrimEnd(t) != []
    decreases |t|
  {
    if IsWhitespace(t[|t| - 1]) {
      TrimEndNonEmpty(t[..|t| - 1]);
    }
  }

  /** A piece of the split has nothing to trim. */
  lemma TrimSeparatorFree(t: string)
    requires SeparatorFree(t)
    ensures Trim(t) == t
  {
  }

  /** The first index at or after `j` that holds a separator, or `|s|`. */
  function FirstSeparator(s: string, j: nat): (r: nat)
    requires j <= |s|
    ensures j <= r <= |s|
    ensures forall m :: j <= m < r ==> !IsSeparator(s[m])
    ensures r < |s| ==> IsSeparator(s[r])
    decreases |s| - j
  {
    if j == |s| || IsSeparator(s[j]) then j else FirstSeparator(s, j + 1)
  }

  /** The end of the run of separators that starts at `j`. */
  function RunEnd(s: string, j: nat): (r: nat)
    requires j <= |s|
    ensures j <= r <= |s|
    ensures forall m :: j <= m < r ==> IsSeparator(s[m])
    ensures r < |s| ==> !IsSeparator(s[r])
    decreases |s| - j
  {
    if j == |s| || !IsSeparator(s[j]) then j else RunEnd(s, j + 1)
  }

  /** `s.split(/[,\s\n]+/)`: the pieces between maximal runs of separators, with an empty
      piece before a leading run and after a trailing one, and `[""]` for the empty string. */
  function Split(s: string): (pieces: seq<string>)
    ensures |pieces| >= 1
    ensures forall i :: 0 <= i < |pieces| ==> SeparatorFree(pieces[i])
    decreases |s|
  {
    var i := FirstSeparator(s, 0);
    if i == |s| then [s]
    else
      var e := RunEnd(s, i);
      [s[..i]] + Split(s[e..])
  }

  /** The pieces that are not blank once trimmed. */
  function Tokens(input: string): (ts: seq<string>)
  {
    Seqs.Filter(Split(input), (t: string) => Trim(t) != [])
  }

  /** Every token is a non-empty run of non-separator characters. */
  lemma TokensWellFormed(input: string)
    ensures forall i :: 0 <= i < |Tokens(input)| ==>
      Tokens(input)[i] != [] && SeparatorFree(Tokens(input)[i])
  {
    var pieces := Split(input);
    Seqs.FilterMembers(pieces, (t: string) => Trim(t) != []);
    forall i | 0 <= i < |Tokens(input)|
      ensures Tokens(input)[i] != [] && SeparatorFree(Tokens(input)[i])
    {
      var t := Tokens(input)[i];
      var j :| 0 <= j < |pieces| && pieces[j] == t;
      assert SeparatorFree(t);
      TrimSeparatorFree(t);
    }
  }

  /** Scanning separators from inside the second part of `a + r` is scanning `r`. */
  lemma {:induction false} RunEndOffset(a: string, r: string, m: nat)
    requires m <= |r|
    ensures RunEnd(a + r, |a| + m) == |a| + RunEnd(r, m)
    decreases |r| - m
  {
    if m < |r| {
      assert (a + r)[|a| + m] == r[m];
      if IsSeparator(r[m]) {
        RunEndOffset(a, r, m + 1);
      }
    }
  }

  lemma {:induction false} FirstSeparatorOffset(a: string, r: string, m: nat)
    requires m <= |r|
    ensures FirstSeparator(a + r, |a| + m) == |a| + FirstSeparator(r, m)
    decreases |r| - m
  {
    if m < |r| {
      assert (a + r)[|a| + m] == r[m];
      if !IsSeparator(r[m]) {
        FirstSeparatorOffset(a, r, m + 1);
      }
    }
  }

  /** A separator-free word followed by a separator is cut right after the word. */
  lemma {:induction false} FirstSeparatorAfterWord(w: string, r: string, j: nat)
    requires j <= |w| && SeparatorFree(w) && r != [] && IsSeparator(r[0])
    ensures FirstSeparator(w + r, j) == |w|
    decreases |w| - j
  {
    if j == |w| {
      FirstSeparatorOffset(w, r, 0);
    } else {
      assert (w + r)[j] == w[j];
      FirstSeparatorAfterWord(w, r, j + 1);
    }
  }

  /** A separator-free text is a single piece. */
  lemma SplitWord(w: string)
    requires SeparatorFree(w)
    ensures Split(w) == [w]
  {
  }

  /** A separator-free word followed by a separator run: the word is the first piece, and
      splitting goes on after the whole run. */
  lemma SplitFirstPiece(w: string, r: string)
    requires SeparatorFree(w) && r != [] && IsSeparator(r[0])
    ensures Split(w + r) == [w] + Split(r[RunEnd(r, 0)..])
  {
    var s := w + r;
    FirstSeparatorAfterWord(w, r, 0);
    RunEndOffset(w, r, 0);
    var e := |w| + RunEnd(r, 0);
    SplitAtFirstSeparator(s);
    assert s[..|w|] == w;
    assert s[e..] == r[RunEnd(r, 0)..];
  }

  /** One step of `Split`: the piece before the first separator, then the pieces after the
      run it starts. */
  lemma SplitAtFirstSeparator(s: string)
    requires FirstSeparator(s, 0) < |s|
    ensures Split(s) == [s[..FirstSeparator(s, 0)]] + Split(s[RunEnd(s, FirstSeparator(s, 0))..])
  {
  }

  /** Leading separators do not change the tokens. */
  lemma TokensSkipRun(s: string)
    ensures Tokens(s) == Tokens(s[RunEnd(s, 0)..])
  {
    if s != [] && IsSeparator(s[0]) {
      SplitFirstPiece([], s);
      assert [] + s == s;
      Seqs.FilterAppend([[]], Split(s[RunEnd(s, 0)..]), (t: string) => Trim(t) != []);
      assert Trim([]) == [];
    } else {
      assert s[0..] == s;
    }
  }

  /** A separator in front of a text does not change its tokens. */
  lemma TokensLeadingSeparator(c: char, b: string)
    requires IsSeparator(c)
    ensures Tokens([c] + b) == Tokens(b)
  {
    TokensSkipRun([c] + b);
    assert RunEnd([c] + b, 0) == RunEnd([c] + b, 1);
    RunEndOffset([c], b, 0);
    assert ([c] + b)[1 + RunEnd(b, 0)..] == b[RunEnd(b, 0)..];
    TokensSkipRun(b);
  }

  /** A separator-free word followed by a separator contributes its own tokens, then those of
      the rest. */
  lemma TokensFirstPiece(w: string, r: string)
    requires SeparatorFree(w) && r != [] && IsSeparator(r[0])
    ensures Tokens(w + r) == Tokens(w) + Tokens(r)
  {
    SplitFirstPiece(w, r);
    SplitWord(w);
    Seqs.FilterAppend([w], Split(r[RunEnd(r, 0)..]), (t: string) => Trim(t) != []);
    TokensSkipRun(r);
  }

  /** The empty text has no tokens. */
  lemma TokensEmpty()
    ensures Tokens([]) == []
  {
    BlankHasNoTokens([]);
  }

  /** A non-empty separator-free word is exactly one token. */
  lemma TokensWord(w: string)
    requires w != [] && SeparatorFree(w)
    ensures Tokens(w) == [w]
  {
    TokensJoin([w]);
  }

  /** Every separator cuts: the tokens of a text with a separator in it are the tokens before
      the separator followed by the tokens after it. With `TokensEmpty` and `TokensWord` this
      fixes the tokens of every text. */
  lemma {:induction false} TokensAtSeparator(a: string, c: char, b: string)
    requires IsSeparator(c)
    ensures Tokens(a + [c] + b) == Tokens(a) + Tokens(b)
    decreases |a|
  {
    var i := FirstSeparator(a, 0);
    if i == |a| {
      TokensAtSeparatorInWord(a, c, b);
    } else {
      var w, d, a'' := a[..i], a[i], a[i + 1..];
      assert a == w + ([d] + a'');
      TokensAtSeparator(a'', c, b);
      TokensAtSeparatorAfterWord(w, d, a'', c, b);
    }
  }

  /** The case of `TokensAtSeparator` where the text before the separator is one word. */
  lemma TokensAtSeparatorInWord(a: string, c: char, b: string)
    requires IsSeparator(c) && SeparatorFree(a)
    ensures Tokens(a + [c] + b) == Tokens(a) + Tokens(b)
  {
    TokensWordThenSeparator(a, c, b);
    assert a + [c] + b == a + ([c] + b);
  }

  /** The case of `TokensAtSeparator` where the text before the separator is a word, a
      separator and a rest for which the property holds. */
  lemma TokensAtSeparatorAfterWord(w: string, d: char, rest: string, c: char, b: string)
    requires IsSeparator(c) && SeparatorFree(w) && IsSeparator(d)
    requires Tokens(rest + [c] + b) == Tokens(rest) + Tokens(b)
    ensures Tokens(w + ([d] + rest) + [c] + b) == Tokens(w + ([d] + rest)) + Tokens(b)
  {
    var tail := rest + [c] + b;
    assert w + ([d] + rest) + [c] + b == w + ([d] + tail);
    TokensWordThenSeparator(w, d, rest);
    TokensWordThenSeparator(w, d, tail);
    SplitsCompose(Tokens, w, d, rest, c, b);
  }

  /** The bookkeeping of `TokensAtSeparatorAfterWord` for any tokeniser `T` that splits a word
      off at a separator. */
  lemma SplitsCompose(T: string -> seq<string>, w: string, d: char, rest: string, c: char, b: string)
    requires T(w + ([d] + rest)) == T(w) + T(rest)
    requires T(w + ([d] + (rest + [c] + b))) == T(w) + T(rest + [c] + b)
    requires T(rest + [c] + b) == T(rest) + T(b)
    ensures T(w + ([d] + (rest + [c] + b))) == T(w + ([d] + rest)) + T(b)
  {
  }

  /** A word, a separator and a rest: the word's tokens, then the rest's. */
  lemma TokensWordThenSeparator(w: string, d: char, rest: string)
    requires SeparatorFree(w) && IsSeparator(d)
    ensures Tokens(w + ([d] + rest)) == Tokens(w) + Tokens(rest)
  {
    TokensFirstPiece(w, [d] + rest);
    TokensLeadingSeparator(d, rest);
  }

  /** Concatenation of a sequence of strings. */
  function Concat(ss: seq<string>): string
    decreases |ss|
  {
    if ss == [] then [] else Concat(ss[..|ss| - 1]) + ss[|ss| - 1]
  }

  lemma {:induction false} ConcatAppend(a: seq<string>, b: seq<string>)
    ensures Concat(a + b) == Concat(a) + Concat(b)
    decreases |b|
  {
    if b == [] {
      assert a + b == a;
    } else {
      var b' := b[..|b| - 1];
      assert (a + b)[..|a + b| - 1] == a + b';
      ConcatAppend(a, b');
    }
  }

  /** The input with every separator character deleted. */
  function StripSeparators(s: string): string {
    Seqs.Filter(s, (c: char) => !IsSeparator(c))
  }

  lemma StripSeparatorFree(t: string)
    requires SeparatorFree(t)
    ensures StripSeparators(t) == t
  {
    Seqs.FilterAll(t, (c: char) => !IsSeparator(c));
  }

  lemma StripSeparatorRun(t: string)
    requires forall m :: 0 <= m < |t| ==> IsSeparator(t[m])
    ensures StripSeparators(t) == []
  {
    Seqs.FilterNone(t, (c: char) => !IsSeparator(c));
  }

  lemma StripAppend(a: string, b: string)
    ensures StripSeparators(a + b) == StripSeparators(a) + StripSeparators(b)
  {
    Seqs.FilterAppend(a, b, (c: char) => !IsSeparator(c));
  }

  /** Deleting the separators of a piece, a separator run and the rest leaves the piece and the rest. */
  lemma StripPieceRunRest(head: string, run: string, rest: string)
    requires SeparatorFree(head)
    requires forall m :: 0 <= m < |run| ==> IsSeparator(run[m])
    ensures StripSeparators(head + run + rest) == head + StripSeparators(rest)
  {
    StripAppend(head + run, rest);
    StripAppend(head, run);
    StripSeparatorFree(head);
    StripSeparatorRun(run);
    assert head + [] == head;
  }

  /** Splitting loses exactly the separators: the pieces, concatenated, are the input without them. */
  lemma {:induction false} SplitConcat(s: string)
    ensures Concat(Split(s)) == StripSeparators(s)
    decreases |s|
  {
    var i := FirstSeparator(s, 0);
    if i == |s| {
      assert Split(s) == [s];
      assert Concat([s]) == Concat([]) + s;
      StripSeparatorFree(s);
    } else {
      var e := RunEnd(s, i);
      var head, run, rest := s[..i], s[i..e], s[e..];
      assert Split(s) == [head] + Split(rest);
      SplitConcat(rest);
      ConcatAppend([head], Split(rest));
      assert Concat([head]) == Concat([]) + head;
      assert s == head + run + rest;
      assert SeparatorFree(head) by {
        forall m | 0 <= m < |head| ensures !IsSeparator(head[m]) {
          assert head[m] == s[m];
        }
      }
      assert forall m :: 0 <= m < |run| ==> IsSeparator(run[m]) by {
        forall m | 0 <= m < |run| ensures IsSeparator(run[m]) {
          assert run[m] == s[i + m];
        }
      }
      StripPieceRunRest(head, run, rest);
      assert Concat([]) == [];
      assert Concat([head]) == head;
      var pieces := [head] + Split(rest);
      assert Concat(pieces) == head + StripSeparators(rest);
      assert Split(s) == pieces;
    }
  }

  /** Dropping empty pieces does not change the concatenation. */
  lemma {:induction false} ConcatDropEmpty(ss: seq<string>)
    requires forall i :: 0 <= i < |ss| ==> SeparatorFree(ss[i])
    ensures Concat(Seqs.Filter(ss, (t: string) => Trim(t) != [])) == Concat(ss)
    decreases |ss|
  {
    if ss != [] {
      var init, last := ss[..|ss| - 1], ss[|ss| - 1];
      ConcatDropEmpty(init);
      TrimSeparatorFree(last);
      var kept := Seqs.Filter(init, (t: string) => Trim(t) != []);
      ConcatAppend(kept, if last != [] then [last] else []);
      ConcatAppend(init, [last]);
      assert Concat([last]) == Concat([]) + last;
      assert init + [last] == ss;
    }
  }

  /** The tokens, concatenated, are the input without its separators: no character but a
      separator is ever lost, and none is invented. */
  lemma TokensConcat(input: string)
    ensures Concat(Tokens(input)) == StripSeparators(input)
  {
    SplitConcat(input);
    ConcatDropEmpty(Split(input));
  }

  /** The text a user gets by typing the tokens separated by single spaces. */
  function Join(ts: seq<string>): string
    decreases |ts|
  {
    if ts == [] then []
    else if |ts| == 1 then ts[0]
    else ts[0] + [' '] + Join(ts[1..])
  }

  lemma {:induction false} JoinStartsWithFirst(ts: seq<string>)
    requires |ts| >= 1 && ts[0] != []
    ensures Join(ts) != [] && Join(ts)[0] == ts[0][0]
    decreases |ts|
  {
  }

  /** Splitting a space-joined list of tokens gives the tokens back. */
  lemma {:induction false} SplitJoin(ts: seq<string>)
    requires |ts| >= 1
    requires forall i :: 0 <= i < |ts| ==> ts[i] != [] && SeparatorFree(ts[i])
    ensures Split(Join(ts)) == ts
    decreases |ts|
  {
    var s := Join(ts);
    var t := ts[0];
    if |ts| == 1 {
      assert s == t;
    } else {
      var rest := Join(ts[1..]);
      assert s == t + [' '] + rest;
      JoinStartsWithFirst(ts[1..]);
      assert forall m :: 0 <= m < |t| ==> s[m] == t[m];
      assert IsSeparator(s[|t|]);
      assert FirstSeparator(s, 0) == |t|;
      assert s[|t| + 1] == rest[0] == ts[1][0];
      assert !IsSeparator(s[|t| + 1]);
      assert RunEnd(s, |t|) == |t| + 1;
      assert s[..|t|] == t;
      assert s[|t| + 1..] == rest;
      SplitJoin(ts[1..]);
      assert [t] + ts[1..] == ts;
    }
  }

  /** Round trip: tokenising the space-joined tokens gives the same tokens. */
  lemma TokensJoin(ts: seq<string>)
    requires forall i :: 0 <= i < |ts| ==> ts[i] != [] && SeparatorFree(ts[i])
    ensures Tokens(Join(ts)) == ts
  {
    if ts == [] {
      assert Split([]) == [[]];
      assert Trim([]) == [];
    } else {
      SplitJoin(ts);
      forall i | 0 <= i < |ts| ensures Trim(ts[i]) != [] {
        TrimSeparatorFree(ts[i]);
      }
      Seqs.FilterAll(ts, (t: string) => Trim(t) != []);
    }
  }

  lemma {:induction false} ConcatNonEmpty(ss: seq<string>)
    requires ss != [] && ss[|ss| - 1] != []
    ensures Concat(ss) != []
  {
  }

  /** Blank input has no tokens, so the blank check never hides a token. */
  lemma BlankHasNoTokens(input: string)
    requires AllWhitespace(input)
    ensures Tokens(input) == []
  {
    var ts := Tokens(input);
    TokensWellFormed(input);
    TokensConcat(input);
    StripSeparatorRun(input);
    if ts != [] {
      ConcatNonEmpty(ts);
    }
  }

  /** Each token trimmed and parsed, keeping only those that are numbers; `None` stands for NaN. */
  function ParseAll(ts: seq<string>, parse: string -> Option<real>): (xs: seq<real>)
    ensures |xs| <= |ts|
    decreases |ts|
  {
    if ts == [] then []
    else
      var init := ParseAll(ts[..|ts| - 1], parse);
      match parse(Trim(ts[|ts| - 1]))
      case Some(x) => init + [x]
      case None => init
  }

  /** The numbers read from the text field. */
  function Numbers(input: string, parse: string -> Option<real>): seq<real> {
    ParseAll(Tokens(input), parse)
  }

  /** The sample read from the text field, or the error the page reports. */
  function ReadSample(input: string, parse: string -> Option<real>): (r: Result<seq<real>, InputError>)
    ensures r.Success? ==> r.value == Numbers(input, parse) && |r.value| > 0
  {
    if Trim(input) == [] then Failure(EmptyInput)
    else
      var xs := Numbers(input, parse);
      if |xs| == 0 then Failure(NoValidData) else Success(xs)
  }

  /** The numbers read are the values of the tokens that parse, one per such token and in
      the tokens' order. */
  lemma {:induction false} ParseAllInOrder(ts: seq<string>, parse: string -> Option<real>)
    ensures var kept := Seqs.Filter(ts, (t: string) => parse(Trim(t)).Some?);
      && |ParseAll(ts, parse)| == |kept|
      && forall i :: 0 <= i < |kept| ==> parse(Trim(kept[i])) == Some(ParseAll(ts, parse)[i])
    decreases |ts|
  {
    if ts != [] {
      var init, last := ts[..|ts| - 1], ts[|ts| - 1];
      ParseAllInOrder(init, parse);
    }
  }

  /** Every number read comes from parsing a token, every token that parses contributes its
      value, and nothing is read exactly when no token parses. */
  lemma ParseAllMembers(ts: seq<string>, parse: string -> Option<real>)
    ensures forall i :: 0 <= i < |ParseAll(ts, parse)| ==> ParsedFrom(ParseAll(ts, parse)[i], ts, parse)
    ensures forall j :: 0 <= j < |ts| && parse(Trim(ts[j])).Some? ==>
      parse(Trim(ts[j])).value in ParseAll(ts, parse)
    ensures |ParseAll(ts, parse)| == 0 <==> forall j :: 0 <= j < |ts| ==> parse(Trim(ts[j])).None?
  {
    var xs := ParseAll(ts, parse);
    var f := (t: string) => parse(Trim(t)).Some?;
    var kept := Seqs.Filter(ts, f);
    ParseAllInOrder(ts, parse);
    Seqs.FilterMembers(ts, f);
    forall i | 0 <= i < |xs| ensures ParsedFrom(xs[i], ts, parse) {
      assert parse(Trim(kept[i])) == Some(xs[i]);
      var j :| 0 <= j < |ts| && ts[j] == kept[i];
    }
    forall j | 0 <= j < |ts| && parse(Trim(ts[j])).Some?
      ensures parse(Trim(ts[j])).value in xs
    {
      assert f(ts[j]);
      var k :| 0 <= k < |kept| && kept[k] == ts[j];
      assert parse(Trim(kept[k])) == Some(xs[k]);
    }
    if |xs| > 0 {
      assert kept[0] in ts && f(kept[0]);
    }
  }

  /** `x` is what `parseFloat` gives for one of the tokens. */
  ghost predicate ParsedFrom(x: real, ts: seq<string>, parse: string -> Option<real>) {
    exists j :: 0 <= j < |ts| && parse(Trim(ts[j])) == Some(x)
  }

  /** The three outcomes of reading the text field, each characterised: blank input, no token
      that parses, or a non-empty sample of parsed tokens. */
  lemma ReadSampleOutcomes(input: string, parse: string -> Option<real>)
    ensures ReadSample(input, parse) == Failure(EmptyInput) <==> AllWhitespace(input)
    ensures ReadSample(input, parse) == Failure(NoValidData) <==>
      !AllWhitespace(input) && forall j :: 0 <= j < |Tokens(input)| ==> parse(Tokens(input)[j]).None?
    ensures ReadSample(input, parse).Success? ==>
      forall i :: 0 <= i < |ReadSample(input, parse).value| ==>
        exists j :: 0 <= j < |Tokens(input)| && parse(Tokens(input)[j]) == Some(ReadSample(input, parse).value[i])
    ensures ReadSample(input, parse).Success? ==>
      var kept := Seqs.Filter(Tokens(input), (t: string) => parse(Trim(t)).Some?);
      && |ReadSample(input, parse).value| == |kept|
      && forall i :: 0 <= i < |kept| ==> parse(Trim(kept[i])) == Some(ReadSample(input, parse).value[i])
  {
    ParseAllInOrder(Tokens(input), parse);
    TrimEmptyIff(input);
    TokensWellFormed(input);
    var ts := Tokens(input);
    forall j | 0 <= j < |ts| ensures Trim(ts[j]) == ts[j] {
      TrimSeparatorFree(ts[j]);
    }
    ParseAllMembers(ts, parse);
  }
}
