/** The mechanisms by name and strength, and how lists of them may be written. */
module SaslNames {
  import opened Basics
  import opened Sasl

  function NameOf(m: Mechanism): string {
    match m
    case ScramSha512 => "SCRAM-SHA512"
    case ScramSha256 => "SCRAM-SHA256"
    case ScramSha1 => "SCRAM-SHA1"
    case Plain => "PLAIN"
    case Unknown => ""
  }

  function Strength(m: Mechanism): nat {
    match m
    case ScramSha512 => 4
    case ScramSha256 => 3
    case ScramSha1 => 2
    case Plain => 1
    case Unknown => 0
  }

  predicate On(enabled: seq<bool>, m: Mechanism)
    requires |enabled| == |NAMES|
  {
    m != Unknown && enabled[4 - Strength(m)]
  }

  lemma InOrder(m: Mechanism)
    requires m != Unknown
    ensures MECHANISMS[4 - Strength(m)] == m && NAMES[4 - Strength(m)] == NameOf(m)
  {
  }

  /** The mechanism selected is enabled and named in the list, and the strongest such one. */
  lemma SelectedIsStrongest(enabled: seq<bool>, mechlist: string, m: Mechanism, n: Mechanism)
    requires |enabled| == |NAMES| && Selects(enabled, mechlist, m)
    ensures m != Unknown ==> On(enabled, m) && NameOf(m) in Split(IsBlank, Normalised(mechlist))
    ensures On(enabled, n) && NameOf(n) in Split(IsBlank, Normalised(mechlist)) ==> Strength(n) <= Strength(m)
  {
    if m != Unknown {
      InOrder(m);
    }
    if n != Unknown {
      InOrder(n);
    }
  }

  // ----- how a list may be written -----

  /** The same letter, in upper or lower case. */
  predicate SameLetter(a: char, b: char) {
    || a == b
    || ('a' <= a <= 'z' && b as int == a as int - 32)
    || ('a' <= b <= 'z' && a as int == b as int - 32)
  }

  predicate SameLetters(a: string, b: string) {
    |a| == |b| && forall i :: 0 <= i < |a| ==> SameLetter(a[i], b[i])
  }

  lemma LetterIgnoresCase(a: char, b: char)
    requires SameLetter(a, b)
    ensures Normal(a) == Normal(b) && ToUpper(a) == ToUpper(b)
  {
  }

  /** Upper and lower case make no difference, neither to selection nor to configuration. */
  lemma CaseIsIgnored(a: string, b: string)
    requires SameLetters(a, b)
    ensures Normalised(a) == Normalised(b) && Map(ToUpper, a) == Map(ToUpper, b)
  {
    forall i | 0 <= i < |a| ensures Normal(a[i]) == Normal(b[i]) && ToUpper(a[i]) == ToUpper(b[i]) {
      LetterIgnoresCase(a[i], b[i]);
    }
  }

  /** The characters that separate names, besides the space: punctuation other than the hyphen. */
  lemma SeparatorsAre(c: char)
    ensures IsSeparator(c) <==>
            || c == '!' || c == '"' || c == '#' || c == '$' || c == '%' || c == '&' || c == '\'' || c == '(' || c == ')'
            || c == '*' || c == '+' || c == ',' || c == '.' || c == '/' || c == ':' || c == ';' || c == '<' || c == '='
            || c == '>' || c == '?' || c == '@' || c == '[' || c == '\\' || c == ']' || c == '^' || c == '_' || c == '`'
            || c == '{' || c == '|' || c == '}' || c == '~'
  {
  }

  /** The characters between the words of the option: space, tab, line feed, vertical tab, form feed, return. */
  lemma SpacesAre(c: char)
    ensures IsSpace(c) <==> c as int == 32 || 9 <= c as int <= 13
  {
  }

  /** A name in any case, between separators or ends, is found. */
  lemma {:induction false} WrittenNameIsFound(before: string, name: string, after: string, m: Mechanism)
    requires m != Unknown && SameLetters(name, NameOf(m))
    requires before == "" || before[|before| - 1] == ' ' || IsSeparator(before[|before| - 1])
    requires after == "" || after[0] == ' ' || IsSeparator(after[0])
    ensures NameOf(m) in Split(IsBlank, Normalised(before + name + after))
  {
    InOrder(m);
    NameIsFound(before, 4 - Strength(m), after);
    assert SameLetters(before + name + after, before + NameOf(m) + after);
    CaseIsIgnored(before + name + after, before + NameOf(m) + after);
  }
}
