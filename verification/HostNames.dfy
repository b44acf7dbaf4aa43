/** Slugs, host names and the hosts derived from them
    (crates/validator/src/lib.rs, apps/control-api/src/domain/hosts.rs). */
module HostNames {
  import opened Basics

  datatype SlugError = SlugEmpty | SlugInvalidCharacter | SlugTooLong
  datatype HostError = HostEmpty | HostInvalidCharacter | HostInvalidLabel | HostTooLong

  // --- Characters -----------------------------------------------------------------------------

  predicate IsLowerAlnum(c: char) { 'a' <= c <= 'z' || '0' <= c <= '9' }
  predicate IsAlnum(c: char) { IsLowerAlnum(c) || 'A' <= c <= 'Z' }

  predicate IsAsciiWhitespace(c: char) { c == ' ' || c == '\t' || c == '\n' || c == '\r' || c == '\U{C}' }

  /** The White_Space property, which trimming uses. */
  predicate IsWhitespace(c: char) {
    '\U{9}' <= c <= '\U{D}' || c == ' ' || c == '\U{85}' || c == '\U{A0}' || c == '\U{1680}'
    || '\U{2000}' <= c <= '\U{200A}' || c == '\U{2028}' || c == '\U{2029}' || c == '\U{202F}' || c == '\U{205F}' || c == '\U{3000}'
  }

  predicate IsSeparator(c: char) { c == '-' || c == '_' || IsAsciiWhitespace(c) }

  predicate IsSlugInput(c: char) { IsAlnum(c) || IsSeparator(c) }

  function Lower(c: char): char {
    if 'A' <= c <= 'Z' then (c as int - 'A' as int + 'a' as int) as char else c
  }

  function LowerAll(s: string): (r: string)
    ensures |r| == |s| && forall k :: 0 <= k < |s| ==> r[k] == Lower(s[k])
  {
    seq(|s|, k requires 0 <= k < |s| => Lower(s[k]))
  }

  function ByteLength(s: string): nat {
    if s == [] then 0
    else
      var n := s[|s| - 1] as int;
      ByteLength(s[..|s| - 1]) + if n < 0x80 then 1 else if n < 0x800 then 2 else if n < 0x1_0000 then 3 else 4
  }

  function TrimStart(s: string): string {
    if s != [] && IsWhitespace(s[0]) then TrimStart(s[1..]) else s
  }

  function TrimEnd(s: string): string {
    if s != [] && IsWhitespace(s[|s| - 1]) then TrimEnd(s[..|s| - 1]) else s
  }

  function Trim(s: string): string { TrimEnd(TrimStart(s)) }

  function TrimEndOf(s: string, c: char): (r: string)
    ensures r <= s && (r == [] || r[|r| - 1] != c)
    ensures r == s || s[|s| - 1] == c
  {
    if s != [] && s[|s| - 1] == c then TrimEndOf(s[..|s| - 1], c) else s
  }

  // --- Slugs: the words of a text, joined by dashes -------------------------------------------------

  /** The maximal runs of letters and digits, in lower case. */
  function Words(s: string): seq<string> {
    if s == [] then []
    else
      var before, c := s[..|s| - 1], s[|s| - 1];
      var words := Words(before);
      if !IsAlnum(c) then words
      else if before != [] && IsAlnum(before[|before| - 1]) && words != [] then words[|words| - 1 := words[|words| - 1] + [Lower(c)]]
      else words + [[Lower(c)]]
  }

  function Join(words: seq<string>): string {
    if words == [] then ""
    else if |words| == 1 then words[0]
    else Join(words[..|words| - 1]) + "-" + words[|words| - 1]
  }

  /** Dash-separated, non-empty runs of lower-case letters and digits. */
  predicate IsSlug(s: string) {
    && s != [] && s[0] != '-' && s[|s| - 1] != '-'
    && (forall k :: 0 <= k < |s| ==> IsLowerAlnum(s[k]) || s[k] == '-')
    && (forall k :: 0 <= k < |s| - 1 ==> !(s[k] == '-' && s[k + 1] == '-'))
  }

  predicate SlugInputs(s: string) { forall k :: 0 <= k < |s| ==> IsSlugInput(s[k]) }

  /** The first character that is not allowed comes before the joined words grow beyond 120. */
  ghost predicate InvalidFirst(s: string) {
    exists p :: 0 <= p < |s| && !IsSlugInput(s[p]) && SlugInputs(s[..p]) && |Join(Words(s[..p]))| <= 120
  }

  ghost function SlugResult(value: string): Result<string, SlugError> {
    var s := Trim(value);
    if InvalidFirst(s) then Err(SlugInvalidCharacter)
    else if !SlugInputs(s) || |Join(Words(s))| > 120 then Err(SlugTooLong)
    else if Words(s) == [] then Err(SlugEmpty)
    else Ok(Join(Words(s)))
  }

  lemma {:induction false} WordsAreWords(s: string)
    ensures forall k :: 0 <= k < |Words(s)| ==> Words(s)[k] != [] && forall i :: 0 <= i < |Words(s)[k]| ==> IsLowerAlnum(Words(s)[k][i])
    ensures s != [] && IsAlnum(s[|s| - 1]) ==> Words(s) != []
  {
    if s != [] { WordsAreWords(s[..|s| - 1]); }
  }

  lemma {:induction false} JoinEmpty(words: seq<string>)
    requires forall k :: 0 <= k < |words| ==> words[k] != []
    ensures Join(words) == [] <==> words == []
  {
  }

  /** One more letter or digit: it extends the last word, or starts a new one after a dash. */
  lemma JoinGrows(s: string, c: char)
    requires IsAlnum(c)
    ensures Join(Words(s + [c])) ==
            if (s != [] && IsAlnum(s[|s| - 1])) || Words(s) == [] then Join(Words(s)) + [Lower(c)] else Join(Words(s)) + "-" + [Lower(c)]
  {
    WordsGrow(s, c);
    if s != [] && IsAlnum(s[|s| - 1]) { JoinExtend(Words(s), Lower(c)); } else { JoinAppend(Words(s), [Lower(c)]); }
  }

  lemma WordsGrow(s: string, c: char)
    requires IsAlnum(c)
    ensures s != [] && IsAlnum(s[|s| - 1]) ==>
              Words(s) != [] && Words(s + [c]) == Words(s)[|Words(s)| - 1 := Words(s)[|Words(s)| - 1] + [Lower(c)]]
    ensures s == [] || !IsAlnum(s[|s| - 1]) ==> Words(s + [c]) == Words(s) + [[Lower(c)]]
  {
    assert (s + [c])[..|s|] == s;
    WordsAreWords(s);
  }

  lemma JoinExtend(words: seq<string>, c: char)
    requires words != []
    ensures Join(words[|words| - 1 := words[|words| - 1] + [c]]) == Join(words) + [c]
  {
    var longer := words[|words| - 1 := words[|words| - 1] + [c]];
    assert longer[..|words| - 1] == words[..|words| - 1];
    if |words| > 1 {
      var before, last := Join(words[..|words| - 1]) + "-", words[|words| - 1];
      assert before + (last + [c]) == (before + last) + [c];
    }
  }

  lemma JoinAppend(words: seq<string>, word: string)
    ensures Join(words + [word]) == if words == [] then word else Join(words) + "-" + word
  {
    assert (words + [word])[..|words|] == words;
  }

  lemma {:induction false} JoinOnlyGrows(s: string, k: nat)
    requires k <= |s|
    ensures |Join(Words(s[..k]))| <= |Join(Words(s))|
    decreases |s|
  {
    if k == |s| {
      assert s[..k] == s;
    } else {
      JoinOnlyGrows(s[..|s| - 1], k);
      assert s[..|s| - 1][..k] == s[..k];
      assert s == s[..|s| - 1] + [s[|s| - 1]];
      if IsAlnum(s[|s| - 1]) { JoinGrows(s[..|s| - 1], s[|s| - 1]); }
    }
  }

  lemma WordsEmpty(s: string)
    ensures Join(Words(s)) == [] <==> Words(s) == []
  {
    WordsAreWords(s);
    JoinEmpty(Words(s));
  }

  /** What the loop makes of a letter or digit. */
  lemma LetterStep(before: string, c: char, normalized: string)
    requires IsAlnum(c) && normalized == Join(Words(before))
    ensures Join(Words(before + [c])) ==
            (if normalized != [] && before != [] && !IsAlnum(before[|before| - 1]) then normalized + "-" else normalized) + [Lower(c)]
  {
    WordsEmpty(before);
    JoinGrows(before, c);
  }

  lemma SeparatorStep(before: string, c: char)
    requires !IsAlnum(c)
    ensures Words(before + [c]) == Words(before)
  {
    assert (before + [c])[..|before|] == before;
  }

  method NormalizeSlug(value: string) returns (r: Result<string, SlugError>)
    ensures r == SlugResult(value)
  {
    var s := Trim(value);
    var normalized := "";
    var separatorPending := false;
    assert s[..0] == [];
    for k := 0 to |s|
      invariant SlugInputs(s[..k])
      invariant normalized == Join(Words(s[..k])) && |normalized| <= 120
      invariant separatorPending <==> k > 0 && !IsAlnum(s[k - 1]) && normalized != []
    {
      var c := s[k];
      ghost var before := s[..k];
      assert s[..k + 1] == before + [c];
      assert k > 0 ==> before[k - 1] == s[k - 1];
      if IsAlnum(c) {
        LetterStep(before, c, normalized);
        if separatorPending && normalized != [] { normalized := normalized + "-"; }
        separatorPending := false;
        normalized := normalized + [Lower(c)];
      } else if IsSeparator(c) {
        SeparatorStep(before, c);
        separatorPending := normalized != [];
      } else {
        InvalidStops(s, k);
        return Err(SlugInvalidCharacter);
      }
      InputsSnoc(before, c);
      if |normalized| > 120 {
        TooLongFirst(s, k + 1);
        return Err(SlugTooLong);
      }
    }
    assert s[..|s|] == s;
    NothingInvalid(s);
    WordsEmpty(s);
    r := if normalized == [] then Err(SlugEmpty) else Ok(normalized);
  }

  lemma InputsSnoc(before: string, c: char)
    requires SlugInputs(before) && IsSlugInput(c)
    ensures SlugInputs(before + [c])
  {
  }

  lemma InvalidStops(s: string, k: nat)
    requires k < |s| && !IsSlugInput(s[k]) && SlugInputs(s[..k]) && |Join(Words(s[..k]))| <= 120
    ensures InvalidFirst(s)
  {
  }

  lemma NothingInvalid(s: string)
    requires SlugInputs(s)
    ensures !InvalidFirst(s)
  {
  }

  /** Once the joined words are too long, no later character is looked at. */
  lemma TooLongFirst(s: string, k: nat)
    requires k <= |s| && SlugInputs(s[..k]) && |Join(Words(s[..k]))| > 120
    ensures !InvalidFirst(s) && |Join(Words(s))| > 120
  {
    JoinOnlyGrows(s, k);
    assert forall q :: 0 <= q < k ==> s[..k][q] == s[q];
    forall p | 0 <= p < |s| && !IsSlugInput(s[p]) ensures |Join(Words(s[..p]))| > 120 {
      assert p >= k;
      assert s[..p][..k] == s[..k];
      JoinOnlyGrows(s[..p], k);
    }
  }

  // --- What slugs are ---------------------------------------------------------------------------------

  lemma {:induction false} JoinIsSlug(words: seq<string>)
    requires words != []
    requires forall k :: 0 <= k < |words| ==> words[k] != [] && forall i :: 0 <= i < |words[k]| ==> IsLowerAlnum(words[k][i])
    ensures IsSlug(Join(words))
  {
    if |words| > 1 {
      JoinIsSlug(words[..|words| - 1]);
      var before, last := Join(words[..|words| - 1]), words[|words| - 1];
      var s := before + "-" + last;
      forall k | 0 <= k < |s| - 1 ensures !(s[k] == '-' && s[k + 1] == '-') {
        if k < |before| - 1 { assert s[k] == before[k] && s[k + 1] == before[k + 1]; }
      }
    }
  }

  /** A letter or digit, in lower case; nothing for any other character. */
  function LetterOf(c: char): string {
    if 'A' <= c <= 'Z' then [(c as int + 32) as char] else if 'a' <= c <= 'z' || '0' <= c <= '9' then [c] else ""
  }

  function Letters(s: string): string {
    if s == [] then "" else Letters(s[..|s| - 1]) + LetterOf(s[|s| - 1])
  }

  lemma LettersSnoc(s: string, c: char)
    ensures Letters(s + [c]) == Letters(s) + LetterOf(c)
  {
    assert (s + [c])[..|s|] == s;
  }

  lemma LetterOfLower(c: char)
    ensures IsAlnum(c) ==> LetterOf(Lower(c)) == LetterOf(c)
    ensures !IsAlnum(c) ==> LetterOf(c) == ""
  {
  }

  lemma JoinedLetters(before: string, c: char)
    requires IsAlnum(c)
    ensures Letters(Join(Words(before + [c]))) == Letters(Join(Words(before))) + LetterOf(c)
  {
    var joined := Join(Words(before));
    JoinGrows(before, c);
    LetterOfLower(c);
    LettersSnoc(joined, Lower(c));
    LettersSnoc(joined, '-');
    LettersSnoc(joined + "-", Lower(c));
  }

  predicate KeepsLetters(s: string) { Letters(Join(Words(s))) == Letters(s) }

  lemma NoLetters()
    ensures KeepsLetters([])
  {
  }

  /** Joining the words of a text loses and adds no letter. */
  lemma {:induction false} WordsKeepLetters(s: string, k: nat)
    requires k <= |s|
    ensures KeepsLetters(s[..k])
  {
    if k == 0 {
      assert s[..k] == [];
      NoLetters();
    } else {
      WordsKeepLetters(s, k - 1);
      assert s[..k] == s[..k - 1] + [s[k - 1]];
      OneMoreLetter(s[..k - 1], s[k - 1]);
    }
  }

  lemma OneMoreLetter(before: string, c: char)
    requires KeepsLetters(before)
    ensures KeepsLetters(before + [c])
  {
    LettersSnoc(before, c);
    LetterOfLower(c);
    if IsAlnum(c) { JoinedLetters(before, c); } else { SeparatorStep(before, c); }
  }

  predicate MayBeInSlug(c: char) {
    'a' <= c <= 'z' || 'A' <= c <= 'Z' || '0' <= c <= '9' || c in {'-', '_', ' ', '\t', '\n', '\r', '\U{C}'}
  }

  /** A text is accepted only if what trimming leaves of it are ASCII letters, digits, dashes, underscores and white space, and its
      slug has the same letters and digits, in lower case. */
  lemma SlugKeepsLetters(value: string)
    ensures SlugResult(value).Ok? ==> Letters(SlugResult(value).value) == Letters(Trim(value))
    ensures SlugResult(value).Ok? <==>
              (forall k :: 0 <= k < |Trim(value)| ==> MayBeInSlug(Trim(value)[k])) && Letters(Trim(value)) != "" && |Join(Words(Trim(value)))| <= 120
  {
    var s := Trim(value);
    WordsKeepLetters(s, |s|);
    assert s[..|s|] == s;
    InputsMean(s);
    if SlugInputs(s) { NothingInvalid(s); }
    WordsEmpty(s);
    if Words(s) != [] { WordsHaveLetters(s); }
  }

  lemma InputsMean(s: string)
    ensures SlugInputs(s) <==> forall k :: 0 <= k < |s| ==> MayBeInSlug(s[k])
  {
  }

  lemma {:induction false} WordsHaveLetters(s: string)
    ensures Letters(s) == "" <==> Words(s) == []
  {
    if s != [] {
      WordsHaveLetters(s[..|s| - 1]);
      LetterOfLower(s[|s| - 1]);
    }
  }

  /** An accepted text gives dash-separated runs of lower-case letters and digits, at most 120 in all. */
  lemma SlugsAreSlugs(value: string)
    requires SlugResult(value).Ok?
    ensures IsSlug(SlugResult(value).value) && |SlugResult(value).value| <= 120
  {
    WordsAreWords(Trim(value));
    JoinIsSlug(Words(Trim(value)));
  }

  /** A beginning of a slug: it may be empty and may end with a dash. */
  predicate IsSlugStart(s: string) {
    && (s != [] ==> s[0] != '-')
    && (forall k :: 0 <= k < |s| ==> IsLowerAlnum(s[k]) || s[k] == '-')
    && (forall k :: 0 <= k < |s| - 1 ==> !(s[k] == '-' && s[k + 1] == '-'))
  }

  lemma {:induction false} SlugStartWords(s: string)
    requires IsSlugStart(s)
    ensures Join(Words(s)) == if s != [] && s[|s| - 1] == '-' then s[..|s| - 1] else s
    ensures Words(s) == [] <==> s == []
  {
    if s != [] {
      var before, c := s[..|s| - 1], s[|s| - 1];
      SlugStartWords(before);
      assert s == before + [c];
      WordsAreWords(s);
      if c != '-' { JoinGrows(before, c); }
    }
  }

  lemma {:induction false} NothingToTrim(s: string)
    requires forall k :: 0 <= k < |s| ==> !IsWhitespace(s[k])
    ensures Trim(s) == s
  {
  }

  /** Normalising a slug again changes nothing, so normalisation is idempotent. */
  lemma SlugIsFixed(s: string)
    requires IsSlug(s) && |s| <= 120
    ensures SlugResult(s) == Ok(s)
  {
    NothingToTrim(s);
    SlugStartWords(s);
    assert SlugInputs(s);
  }

  lemma NormalizeSlugIdempotent(value: string)
    requires SlugResult(value).Ok?
    ensures SlugResult(SlugResult(value).value) == SlugResult(value)
  {
    SlugsAreSlugs(value);
    SlugIsFixed(SlugResult(value).value);
  }

  // --- Host names -----------------------------------------------------------------------------------------

  function Split(s: string, c: char): (parts: seq<string>)
    ensures parts != []
  {
    if s == [] then [""]
    else if s[0] == c then [""] + Split(s[1..], c)
    else
      var rest := Split(s[1..], c);
      [[s[0]] + rest[0]] + rest[1..]
  }

  predicate IsLabelCharacter(c: char) { IsAlnum(c) || c == '-' }

  function LabelError(part: string): Option<HostError> {
    if part == [] || ByteLength(part) > 63 then Some(HostInvalidLabel)
    else if part[0] == '-' || part[|part| - 1] == '-' then Some(HostInvalidLabel)
    else if exists k :: 0 <= k < |part| && !IsLabelCharacter(part[k]) then Some(HostInvalidCharacter)
    else None
  }

  /** The error of the first label that has one. */
  function FirstLabelError(labels: seq<string>): Option<HostError> {
    if labels == [] then None
    else if LabelError(labels[0]).Some? then LabelError(labels[0])
    else FirstLabelError(labels[1..])
  }

  /** Trims blanks, then every trailing dot, and validates the labels. */
  function HostResult(value: string): Result<string, HostError> {
    var trimmed := TrimEndOf(Trim(value), '.');
    if trimmed == [] then Err(HostEmpty)
    else if ByteLength(trimmed) > 253 then Err(HostTooLong)
    else
      var error := FirstLabelError(Split(LowerAll(trimmed), '.'));
      if error.Some? then Err(error.value) else Ok(LowerAll(trimmed))
  }

  method NormalizeHost(value: string) returns (r: Result<string, HostError>)
    ensures r == HostResult(value)
  {
    var trimmed := TrimEndOf(Trim(value), '.');
    if trimmed == [] { return Err(HostEmpty); }
    if ByteLength(trimmed) > 253 { return Err(HostTooLong); }
    var normalized := LowerAll(trimmed);
    var labels := Split(normalized, '.');
    assert labels[0..] == labels;
    for i := 0 to |labels|
      invariant FirstLabelError(labels) == FirstLabelError(labels[i..])
    {
      var part := labels[i];
      assert labels[i..][1..] == labels[i + 1..];
      if part == [] || ByteLength(part) > 63 { return Err(HostInvalidLabel); }
      if part[0] == '-' || part[|part| - 1] == '-' { return Err(HostInvalidLabel); }
      for k := 0 to |part|
        invariant forall j :: 0 <= j < k ==> IsLabelCharacter(part[j])
      {
        if !IsLabelCharacter(part[k]) { return Err(HostInvalidCharacter); }
      }
    }
    r := Ok(normalized);
  }

  lemma {:induction false} SplitLabel(part: string, rest: string)
    requires forall k :: 0 <= k < |part| ==> part[k] != '.'
    ensures Split(part + "." + rest, '.') == [part] + Split(rest, '.')
  {
    if part == [] {
      assert ("." + rest)[1..] == rest;
      assert part + "." + rest == "." + rest;
    } else {
      SplitLabel(part[1..], rest);
      assert (part + "." + rest)[1..] == part[1..] + "." + rest;
      assert [part[0]] + part[1..] == part;
    }
  }

  lemma {:induction false} AsciiBytes(s: string)
    requires forall k :: 0 <= k < |s| ==> s[k] < '\U{80}'
    ensures ByteLength(s) == |s|
  {
    if s != [] { AsciiBytes(s[..|s| - 1]); }
  }

  lemma {:induction false} TrimStartShrinks(s: string)
    ensures |TrimStart(s)| <= |s| && (|TrimStart(s)| == |s| ==> TrimStart(s) == s)
  {
    if s != [] && IsWhitespace(s[0]) { TrimStartShrinks(s[1..]); }
  }

  lemma {:induction false} TrimEndShrinks(s: string)
    ensures |TrimEnd(s)| <= |s| && (|TrimEnd(s)| == |s| ==> TrimEnd(s) == s)
  {
    if s != [] && IsWhitespace(s[|s| - 1]) { TrimEndShrinks(s[..|s| - 1]); }
  }

  lemma {:induction false} SplitCovers(s: string, c: char, k: nat)
    requires k < |s| && s[k] != c
    ensures exists i, j :: 0 <= i < |Split(s, c)| && 0 <= j < |Split(s, c)[i]| && Split(s, c)[i][j] == s[k]
  {
    if k == 0 {
      assert Split(s, c)[0][0] == s[k];
    } else {
      SplitCovers(s[1..], c, k - 1);
      var rest := Split(s[1..], c);
      var i, j :| 0 <= i < |rest| && 0 <= j < |rest[i]| && rest[i][j] == s[k];
      if s[0] == c { assert Split(s, c)[i + 1][j] == s[k]; }
      else if i == 0 { assert Split(s, c)[0][j + 1] == s[k]; }
      else { assert Split(s, c)[i][j] == s[k]; }
    }
  }

  lemma {:induction false} NoLabelError(labels: seq<string>, i: nat)
    requires FirstLabelError(labels).None? && i < |labels|
    ensures LabelError(labels[i]).None?
  {
    if i > 0 { NoLabelError(labels[1..], i - 1); }
  }

  /** A normalised host is its own trimmed, lower-case form ... */
  lemma NormalForm(base: string)
    requires HostResult(base) == Ok(base)
    ensures base != [] && Trim(base) == base && base[|base| - 1] != '.' && LowerAll(base) == base
  {
    AcceptedHost(base, base);
    SameWhenTrimmed(base, TrimEndOf(Trim(base), '.'));
  }

  lemma SameWhenTrimmed(base: string, trimmed: string)
    requires trimmed == TrimEndOf(Trim(base), '.') && trimmed != [] && LowerAll(trimmed) == base && |base| == |trimmed|
    ensures base != [] && Trim(base) == base && base[|base| - 1] != '.' && LowerAll(base) == base
  {
    TrimmedSame(base);
  }

  lemma AcceptedHost(value: string, host: string)
    requires HostResult(value) == Ok(host)
    ensures var trimmed := TrimEndOf(Trim(value), '.');
            trimmed != [] && LowerAll(trimmed) == host && |host| == |trimmed| && FirstLabelError(Split(host, '.')).None?
  {
  }

  lemma TrimmedSame(s: string)
    requires |TrimEndOf(Trim(s), '.')| == |s|
    ensures Trim(s) == s && TrimEndOf(Trim(s), '.') == s
  {
    TrimStartShrinks(s);
    TrimEndShrinks(TrimStart(s));
  }

  /** ... made of label characters and dots. */
  lemma NormalHost(base: string)
    requires HostResult(base) == Ok(base)
    ensures forall k :: 0 <= k < |base| ==> base[k] == '.' || base[k] == '-' || IsLowerAlnum(base[k])
  {
    NormalForm(base);
    AcceptedHost(base, base);
    forall k | 0 <= k < |base| && base[k] != '.' ensures base[k] == '-' || IsLowerAlnum(base[k]) {
      NormalCharacter(base, Split(base, '.'), k);
    }
  }

  lemma NormalCharacter(base: string, labels: seq<string>, k: nat)
    requires labels == Split(base, '.') && FirstLabelError(labels).None? && LowerAll(base) == base
    requires k < |base| && base[k] != '.'
    ensures base[k] == '-' || IsLowerAlnum(base[k])
  {
    SplitCovers(base, '.', k);
    var i, j :| 0 <= i < |labels| && 0 <= j < |labels[i]| && labels[i][j] == base[k];
    NoLabelError(labels, i);
    assert IsLabelCharacter(labels[i][j]);
    assert base[k] == Lower(base[k]);
  }

  lemma {:induction false} BytesAtLeastLength(s: string)
    ensures |s| <= ByteLength(s)
  {
    if s != [] { BytesAtLeastLength(s[..|s| - 1]); }
  }

  /** Normalising a host again changes nothing. */
  lemma NormalizeHostIdempotent(value: string, host: string)
    requires HostResult(value) == Ok(host)
    ensures HostResult(host) == Ok(host)
  {
    AcceptedHost(value, host);
    var trimmed := TrimEndOf(Trim(value), '.');
    assert LowerAll(host) == host;
    forall k | 0 <= k < |host| ensures host[k] == '.' || host[k] == '-' || IsLowerAlnum(host[k]) {
      if host[k] != '.' { NormalCharacter(host, Split(host, '.'), k); }
    }
    assert host[|host| - 1] == Lower(trimmed[|trimmed| - 1]) && host[|host| - 1] != '.';
    BytesAtLeastLength(trimmed);
    PlainHost(host);
  }

  /** One more valid label in front of a normalised base is accepted unchanged while the whole fits in 253. */
  lemma LabelInFront(part: string, base: string)
    requires HostResult(base) == Ok(base) && |part| + 1 + |base| <= 253
    requires part != [] && |part| <= 63 && part[0] != '-' && part[|part| - 1] != '-'
    requires forall k :: 0 <= k < |part| ==> IsLowerAlnum(part[k]) || part[k] == '-'
    ensures HostResult(part + "." + base) == Ok(part + "." + base)
  {
    NormalForm(base);
    AcceptedHost(base, base);
    NormalHost(base);
    var host := part + "." + base;
    forall k | 0 <= k < |host| ensures host[k] == '.' || host[k] == '-' || IsLowerAlnum(host[k]) {
      if k > |part| { assert host[k] == base[k - |part| - 1]; }
    }
    assert host[|host| - 1] == base[|base| - 1];
    AsciiBytes(part);
    LabelsInFront(part, base);
    PlainHost(host);
  }

  lemma LabelsInFront(part: string, base: string)
    requires FirstLabelError(Split(base, '.')).None? && LabelError(part).None? && forall k :: 0 <= k < |part| ==> part[k] != '.'
    ensures FirstLabelError(Split(part + "." + base, '.')).None?
  {
    SplitLabel(part, base);
    assert ([part] + Split(base, '.'))[1..] == Split(base, '.');
  }

  /** A lower-case text of label characters and dots whose labels are valid is accepted unchanged. */
  lemma PlainHost(host: string)
    requires 0 < |host| <= 253 && host[|host| - 1] != '.' && FirstLabelError(Split(host, '.')).None?
    requires forall k :: 0 <= k < |host| ==> host[k] == '.' || host[k] == '-' || IsLowerAlnum(host[k])
    ensures HostResult(host) == Ok(host)
  {
    PlainTextStays(host);
    AsciiBytes(host);
  }

  lemma PlainTextStays(host: string)
    requires host != [] && host[|host| - 1] != '.'
    requires forall k :: 0 <= k < |host| ==> host[k] == '.' || host[k] == '-' || IsLowerAlnum(host[k])
    ensures TrimEndOf(Trim(host), '.') == host && LowerAll(host) == host
  {
    NothingToTrim(host);
  }

  // --- Which hosts are accepted ------------------------------------------------------------------------------

  predicate IsHostCharacter(c: char) { 'a' <= c <= 'z' || '0' <= c <= '9' || c == '-' }

  /** Letters, digits and dashes, no dash at either end, 63 at most. */
  predicate IsLabel(s: string) {
    && 0 < |s| <= 63 && s[0] != '-' && s[|s| - 1] != '-' && forall k :: 0 <= k < |s| ==> IsHostCharacter(s[k])
  }

  /** Labels between single dots: no character but those of labels and dots, no dot at either end or beside another dot, no dash at
      either end or beside a dot, and no 64 characters without a dot. */
  predicate IsDottedLabels(s: string) {
    && s != [] && s[0] != '.' && s[|s| - 1] != '.' && s[0] != '-' && s[|s| - 1] != '-'
    && (forall k :: 0 <= k < |s| ==> s[k] == '.' || IsHostCharacter(s[k]))
    && (forall k :: 0 <= k < |s| - 1 ==> !(s[k] == '.' && s[k + 1] in {'.', '-'}) && !(s[k] == '-' && s[k + 1] == '.'))
    && (forall k :: 0 <= k && k + 64 <= |s| ==> DotWithin(s, k))
  }

  predicate HasDot(s: string) { exists j :: 0 <= j < |s| && s[j] == '.' }

  /** A dot within 64 characters from position `k` on. */
  predicate DotWithin(s: string, k: int)
    requires 0 <= k && k + 64 <= |s|
  {
    exists j :: k <= j < k + 64 && s[j] == '.'
  }

  lemma {:induction false} UndottedIsOneLabel(s: string)
    requires !HasDot(s)
    ensures Split(s, '.') == [s]
  {
    if s != [] {
      assert !HasDot(s[1..]) by {
        forall j | 0 <= j < |s[1..]| ensures s[1..][j] != '.' { assert s[j + 1] != '.'; }
      }
      UndottedIsOneLabel(s[1..]);
      assert s[0] != '.' && [s[0]] + s[1..] == s;
    }
  }

  lemma UndottedLabel(s: string)
    requires !HasDot(s)
    ensures IsDottedLabels(s) <==> IsLabel(s)
  {
    if |s| > 63 { assert !DotWithin(s, 0); }
  }

  predicate NoCapitals(s: string) { forall k :: 0 <= k < |s| ==> !('A' <= s[k] <= 'Z') }

  lemma NoCapitalsInParts(part: string, rest: string)
    requires NoCapitals(part + "." + rest)
    ensures NoCapitals(part) && NoCapitals(rest)
  {
    var s := part + "." + rest;
    assert forall k :: 0 <= k < |part| ==> s[k] == part[k];
    assert forall k :: 0 <= k < |rest| ==> s[|part| + 1 + k] == rest[k];
  }

  lemma LabelMeans(part: string)
    requires NoCapitals(part)
    ensures LabelError(part).None? <==> IsLabel(part)
  {
    if forall k :: 0 <= k < |part| ==> IsLabelCharacter(part[k]) {
      AsciiBytes(part);
    }
    if IsLabel(part) { AsciiBytes(part); }
  }

  lemma FirstDotted(part: string, rest: string)
    requires !HasDot(part) && IsLabel(part) && IsDottedLabels(rest)
    ensures IsDottedLabels(part + "." + rest)
  {
    var s := part + "." + rest;
    forall k | 0 <= k && k + 64 <= |s| ensures DotWithin(s, k) {
      if k <= |part| {
        assert s[|part|] == '.';
      } else {
        assert DotWithin(rest, k - |part| - 1);
        var j :| k - |part| - 1 <= j < k - |part| - 1 + 64 && rest[j] == '.';
        assert s[|part| + 1 + j] == '.';
      }
    }
  }

  lemma LongPart(part: string, rest: string)
    requires !HasDot(part)
    ensures |part| > 63 ==> !DotWithin(part + "." + rest, 0)
  {
    var s := part + "." + rest;
    assert forall k :: 0 <= k < |part| ==> s[k] == part[k] && s[k] != '.';
  }

  lemma DottedParts(part: string, rest: string)
    requires !HasDot(part) && IsDottedLabels(part + "." + rest)
    ensures IsLabel(part) && IsDottedLabels(rest)
  {
    var s := part + "." + rest;
    assert forall k :: 0 <= k < |part| ==> s[k] == part[k];
    assert forall k :: 0 <= k < |rest| ==> s[|part| + 1 + k] == rest[k];
    assert s[|part|] == '.';
    assert part != [] && rest != [];
    LongPart(part, rest);
    forall k | 0 <= k && k + 64 <= |rest| ensures DotWithin(rest, k) {
      assert DotWithin(s, |part| + 1 + k);
      var j :| |part| + 1 + k <= j < |part| + 1 + k + 64 && s[j] == '.';
      assert rest[j - |part| - 1] == '.';
    }
  }

  /** The part before the first dot, and what follows it. */
  lemma {:induction false} FirstDot(s: string) returns (part: string, rest: string)
    requires HasDot(s)
    ensures s == part + "." + rest && !HasDot(part)
  {
    if s[0] == '.' {
      part, rest := "", s[1..];
    } else {
      assert HasDot(s[1..]) by {
        var j :| 0 <= j < |s| && s[j] == '.';
        assert s[1..][j - 1] == '.';
      }
      var before, after := FirstDot(s[1..]);
      part, rest := [s[0]] + before, after;
    }
  }

  lemma {:induction false} LabelsMean(s: string)
    requires NoCapitals(s)
    ensures FirstLabelError(Split(s, '.')).None? <==> IsDottedLabels(s)
    decreases |s|
  {
    if HasDot(s) {
      var part, rest := FirstDot(s);
      NoCapitalsInParts(part, rest);
      SplitLabel(part, rest);
      LabelsMean(rest);
      LabelMeans(part);
      assert ([part] + Split(rest, '.'))[1..] == Split(rest, '.');
      if IsDottedLabels(s) { DottedParts(part, rest); }
      if IsLabel(part) && IsDottedLabels(rest) { FirstDotted(part, rest); }
    } else {
      UndottedIsOneLabel(s);
      UndottedLabel(s);
      LabelMeans(s);
    }
  }

  /** A text is accepted as a host exactly when, without the blanks around it and the dots behind it and in lower case, it is dotted
      labels of 253 characters at most; that is the host. */
  lemma HostExactly(value: string)
    ensures var host := LowerAll(TrimEndOf(Trim(value), '.'));
            && (HostResult(value).Ok? <==> IsDottedLabels(host) && |host| <= 253)
            && (HostResult(value).Ok? ==> HostResult(value).value == host)
  {
    var trimmed := TrimEndOf(Trim(value), '.');
    var host := LowerAll(trimmed);
    LabelsMean(host);
    BytesAtLeastLength(trimmed);
    if IsDottedLabels(host) {
      DottedCharacters(trimmed);
      LowerBytes(trimmed);
    }
  }

  lemma AsciiWhenLower(c: char)
    requires Lower(c) == '.' || IsHostCharacter(Lower(c))
    ensures c < '\U{80}'
  {
  }

  lemma LowerBytes(s: string)
    requires forall k :: 0 <= k < |s| ==> Lower(s[k]) == '.' || IsHostCharacter(Lower(s[k]))
    ensures ByteLength(s) == |s|
  {
    forall k | 0 <= k < |s| ensures s[k] < '\U{80}' { AsciiWhenLower(s[k]); }
    AsciiBytes(s);
  }

  lemma DottedCharacters(s: string)
    requires IsDottedLabels(LowerAll(s))
    ensures forall k :: 0 <= k < |s| ==> Lower(s[k]) == '.' || IsHostCharacter(Lower(s[k]))
  {
    forall k | 0 <= k < |s| ensures Lower(s[k]) == '.' || IsHostCharacter(Lower(s[k])) { assert LowerAll(s)[k] == Lower(s[k]); }
  }

  // --- Hosts of a project and of a deployment --------------------------------------------------------------

  predicate IsHex(c: char) { '0' <= c <= '9' || 'a' <= c <= 'f' }

  predicate IsSimpleUuid(id: string) { |id| == 32 && forall k :: 0 <= k < |id| ==> IsHex(id[k]) }

  function Take(s: string, n: nat): string { if |s| <= n then s else s[..n] }

  function PreviewLabel(slug: string, id: string): string
    requires IsSimpleUuid(id)
  {
    TrimEndOf(Take(slug, 63 - 9), '-') + "-" + id[|id| - 8..]
  }

  function PreviewHostFor(slug: string, id: string, base: string): string
    requires IsSimpleUuid(id)
  {
    PreviewLabel(slug, id) + "." + base
  }

  /** `suffix`: the four random digits of base 36 drawn after the first attempt. */
  function PlatformLabel(slug: string, attempt: nat, suffix: string): string {
    var short := TrimEndOf(Take(slug, 58 - 5), '-');
    if attempt == 0 then short else short + "-" + suffix
  }

  function PlatformHostCandidate(slug: string, base: string, attempt: nat, suffix: string): string {
    PlatformLabel(slug, attempt, suffix) + "." + base
  }

  lemma ShortSlug(slug: string, n: nat)
    requires IsSlug(slug) && n > 0
    ensures var short := TrimEndOf(Take(slug, n), '-');
            && short != [] && |short| <= n && short[0] != '-' && short[|short| - 1] != '-'
            && forall k :: 0 <= k < |short| ==> IsLowerAlnum(short[k]) || short[k] == '-'
  {
    TrimKeepsFirst(Take(slug, n));
  }

  lemma {:induction false} TrimKeepsFirst(s: string)
    requires s != [] && s[0] != '-'
    ensures TrimEndOf(s, '-') != []
  {
    if s[|s| - 1] == '-' { TrimKeepsFirst(s[..|s| - 1]); }
  }

  /** The longest beginning of the slug within the first `n` characters that does not end with a dash. */
  predicate IsShortened(short: string, slug: string, n: nat) {
    && 0 < |short| <= n && short <= slug && short[|short| - 1] != '-'
    && forall k :: |short| <= k < n && k < |slug| ==> slug[k] == '-'
  }

  lemma {:induction false} TrimmedTail(s: string)
    ensures forall k :: |TrimEndOf(s, '-')| <= k < |s| ==> s[k] == '-'
  {
    if s != [] && s[|s| - 1] == '-' { TrimmedTail(s[..|s| - 1]); }
  }

  lemma ShortIsShortened(slug: string, n: nat)
    requires IsSlug(slug) && n > 0
    ensures IsShortened(TrimEndOf(Take(slug, n), '-'), slug, n)
  {
    ShortSlug(slug, n);
    TrimmedTail(Take(slug, n));
  }

  /** The label of a preview host is the slug, shortened to 54 characters, a dash and the last eight digits of the deployment's id;
      that of a platform host the slug, shortened to 53, and after the first attempt a dash and the random digits. */
  lemma LabelsExactly(slug: string, id: string, attempt: nat, suffix: string)
    requires IsSlug(slug) && IsSimpleUuid(id)
    ensures exists short :: IsShortened(short, slug, 54) && PreviewLabel(slug, id) == short + "-" + id[24..]
    ensures exists short :: IsShortened(short, slug, 53) && PlatformLabel(slug, attempt, suffix) == if attempt == 0 then short else short + "-" + suffix
  {
    ShortIsShortened(slug, 54);
    ShortIsShortened(slug, 53);
  }

  /** For every slug and every normalised base of at most 189 characters the preview host is one more label of at
      most 63 characters in front of the base, and normalisation accepts it unchanged. */
  lemma PreviewHostIsNormal(slug: string, id: string, base: string)
    requires IsSlug(slug) && IsSimpleUuid(id) && HostResult(base) == Ok(base) && |base| <= 189
    ensures |PreviewLabel(slug, id)| <= 63 && '.' !in PreviewLabel(slug, id)
    ensures HostResult(PreviewHostFor(slug, id, base)) == Ok(PreviewHostFor(slug, id, base))
  {
    ShortSlug(slug, 54);
    var part := PreviewLabel(slug, id);
    forall k | 0 <= k < |part| ensures IsLowerAlnum(part[k]) || part[k] == '-' {
      if k >= |part| - 8 { assert part[k] == id[|id| - |part| + k]; }
    }
    LabelInFront(part, base);
  }

  /** The platform host leaves more room: its label has at most 58 characters, so a base of up to 194 works. */
  lemma PlatformHostIsNormal(slug: string, base: string, attempt: nat, suffix: string)
    requires IsSlug(slug) && HostResult(base) == Ok(base) && |base| <= 194
    requires |suffix| == 4 && forall k :: 0 <= k < 4 ==> IsLowerAlnum(suffix[k])
    ensures |PlatformLabel(slug, attempt, suffix)| <= 58 && '.' !in PlatformLabel(slug, attempt, suffix)
    ensures HostResult(PlatformHostCandidate(slug, base, attempt, suffix)) == Ok(PlatformHostCandidate(slug, base, attempt, suffix))
  {
    ShortSlug(slug, 53);
    var part := PlatformLabel(slug, attempt, suffix);
    forall k | 0 <= k < |part| ensures IsLowerAlnum(part[k]) || part[k] == '-' {
      if attempt > 0 && k >= |part| - 4 { assert part[k] == suffix[k - |part| + 4]; }
    }
    LabelInFront(part, base);
  }

  /** A longer base does not work with a long slug: the bound of 189 characters is sharp. */
  lemma PreviewHostTooLong(slug: string, id: string, base: string)
    requires IsSlug(slug) && IsSimpleUuid(id) && |slug| >= 54 && slug[53] != '-'
    requires HostResult(base) == Ok(base) && |base| > 189
    ensures HostResult(PreviewHostFor(slug, id, base)) == Err(HostTooLong)
  {
    NormalForm(base);
    AcceptedHost(base, base);
    NormalHost(base);
    var host := PreviewHostFor(slug, id, base);
    var part := PreviewLabel(slug, id);
    assert |part| == 63;
    forall k | 0 <= k < |host| ensures host[k] == '.' || host[k] == '-' || IsLowerAlnum(host[k]) {
      if k > 63 { assert host[k] == base[k - 64]; }
      else if 55 <= k < 63 { assert host[k] == part[k] == id[k - 31]; }
    }
    NothingToTrim(host);
    assert host[|host| - 1] == base[|base| - 1];
    AsciiBytes(host);
  }
}
