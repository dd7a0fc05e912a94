/**
 * SASL mechanism selection: the token search over a list of mechanism names,
 * the list a server advertises, and the configured set of enabled mechanisms.
 */
module Sasl {
  import opened Basics

  /** Strongest first. */
  const NAMES: seq<string> := ["SCRAM-SHA512", "SCRAM-SHA256", "SCRAM-SHA1", "PLAIN"]

  datatype Mechanism = ScramSha512 | ScramSha256 | ScramSha1 | Plain | Unknown

  const MECHANISMS: seq<Mechanism> := [ScramSha512, ScramSha256, ScramSha1, Plain]

  // ----- characters -----

  function ToUpper(c: char): char {
    if 'a' <= c <= 'z' then c - 'a' + 'A' else c
  }

  predicate IsPunct(c: char) {
    '!' <= c <= '/' || ':' <= c <= '@' || '[' <= c <= '`' || '{' <= c <= '~'
  }

  predicate IsSpace(c: char) {
    c == ' ' || c == '\t' || c == '\n' || c == '\r' || c == 11 as char || c == 12 as char
  }

  predicate IsBlank(c: char) {
    c == ' '
  }

  predicate IsSeparator(c: char) {
    c != '-' && IsPunct(c)
  }

  /** What the token search sees of a character. */
  function Normal(c: char): char {
    var u := ToUpper(c);
    if IsSeparator(u) then ' ' else u
  }

  function Normalised(s: string): string {
    Map(Normal, s)
  }

  // ----- tokens -----

  /** The pieces between delimiters, empty ones included. */
  function Split(d: char -> bool, s: string): (r: seq<string>)
    ensures r != []
  {
    if s == [] then [[]]
    else
      var r := Split(d, s[1..]);
      if d(s[0]) then [[]] + r else [[s[0]] + r[0]] + r[1..]
  }

  ghost predicate OccursAt(s: string, name: string, p: nat) {
    p + |name| <= |s| && s[p..p + |name|] == name
  }

  /** The name stands at `p` with a delimiter or an end of the string on both sides. */
  ghost predicate TokenAt(d: char -> bool, s: string, name: string, p: nat) {
    OccursAt(s, name, p) && (p > 0 ==> d(s[p - 1])) && (p + |name| < |s| ==> d(s[p + |name|]))
  }

  ghost predicate Whole(d: char -> bool, name: string) {
    forall i :: 0 <= i < |name| ==> !d(name[i])
  }

  lemma {:induction false} FirstToken(d: char -> bool, s: string, name: string)
    requires Whole(d, name)
    ensures Split(d, s)[0] == name <==> TokenAt(d, s, name, 0)
  {
    if s != [] {
      if !d(s[0]) && name != [] {
        FirstToken(d, s[1..], name[1..]);
        assert OccursAt(s, name, 0) <==> s[0] == name[0] && OccursAt(s[1..], name[1..], 0) by {
          assert |name| <= |s| ==> s[0..|name|] == [s[0]] + s[1..][0..|name| - 1];
          assert name == [name[0]] + name[1..];
        }
      }
    }
  }

  lemma TokenBehind(d: char -> bool, s: string, name: string, p: nat)
    requires s != [] && p > 0
    ensures TokenAt(d, s, name, p) <==> TokenAt(d, s[1..], name, p - 1) && (p == 1 ==> d(s[0]))
  {
    assert p + |name| <= |s| ==> s[p..p + |name|] == s[1..][p - 1..p - 1 + |name|];
  }

  ghost predicate HasLaterToken(d: char -> bool, s: string, name: string) {
    exists p :: p > 0 && TokenAt(d, s, name, p)
  }

  lemma {:induction false} LaterTokenBehind(d: char -> bool, s: string, name: string)
    requires s != []
    ensures HasLaterToken(d, s, name) <==>
            HasLaterToken(d, s[1..], name) || (d(s[0]) && TokenAt(d, s[1..], name, 0))
  {
    if HasLaterToken(d, s, name) {
      var p :| p > 0 && TokenAt(d, s, name, p);
      TokenBehind(d, s, name, p);
    }
    if HasLaterToken(d, s[1..], name) {
      var p :| p > 0 && TokenAt(d, s[1..], name, p);
      TokenBehind(d, s, name, p + 1);
    }
    TokenBehind(d, s, name, 1);
  }

  lemma {:induction false} LaterToken(d: char -> bool, s: string, name: string)
    requires Whole(d, name)
    ensures name in Split(d, s)[1..] <==> HasLaterToken(d, s, name)
  {
    if s != [] {
      var r := Split(d, s[1..]);
      FirstToken(d, s[1..], name);
      LaterToken(d, s[1..], name);
      LaterTokenBehind(d, s, name);
      assert Split(d, s)[1..] == if d(s[0]) then r else r[1..];
      assert r == [r[0]] + r[1..];
    }
  }

  ghost predicate HasToken(d: char -> bool, s: string, name: string) {
    exists p: nat :: TokenAt(d, s, name, p)
  }

  /** The occurrences the search accepts are the pieces of the list. */
  lemma {:induction false} TokensArePieces(d: char -> bool, s: string, name: string)
    requires Whole(d, name)
    ensures HasToken(d, s, name) <==> name in Split(d, s)
  {
    FirstToken(d, s, name);
    LaterToken(d, s, name);
    assert Split(d, s) == [Split(d, s)[0]] + Split(d, s)[1..];
  }

  // ----- the search -----

  /** std::string::find: the first occurrence at or behind `from`. */
  method Find(s: string, name: string, from: nat) returns (r: Option<nat>)
    ensures r.None? ==> forall p :: p >= from ==> !OccursAt(s, name, p)
    ensures r.Some? ==> r.value >= from && OccursAt(s, name, r.value)
    ensures r.Some? ==> forall p :: from <= p < r.value ==> !OccursAt(s, name, p)
  {
    var p := from;
    while p + |name| <= |s|
      invariant p >= from && forall q :: from <= q < p ==> !OccursAt(s, name, q)
      decreases |s| - p
    {
      if s[p..p + |name|] == name {
        return Some(p);
      }
      p := p + 1;
    }
    return None;
  }

  /** containsMechanism */
  method ContainsMechanism(mechlist: string, name: string) returns (r: bool)
    ensures r <==> HasToken(IsBlank, mechlist, name)
  {
    var pos := 0;
    while true
      invariant pos <= |mechlist| + 1 && forall p :: 0 <= p < pos ==> !TokenAt(IsBlank, mechlist, name, p)
      decreases |mechlist| + 1 - pos
    {
      var found := Find(mechlist, name, pos);
      if found.None? {
        return false;
      }
      pos := found.value;
      if pos != 0 && mechlist[pos - 1] != ' ' {
        pos := pos + 1;
        continue;
      }
      if |mechlist| > pos + |name| && mechlist[pos + |name|] != ' ' {
        pos := pos + 1;
        continue;
      }
      assert TokenAt(IsBlank, mechlist, name, pos);
      return true;
    }
  }

  // ----- lists of mechanisms -----

  predicate Delimiter(c: char) {
    c == ' ' || IsSeparator(c)
  }

  lemma MapConcat<T, R>(f: T -> R, a: seq<T>, b: seq<T>)
    ensures Map(f, a + b) == Map(f, a) + Map(f, b)
  {
  }

  /** Names survive normalisation, and no delimiter is part of one. */
  lemma NamesAreTokens(k: nat)
    requires k < |NAMES|
    ensures Normalised(NAMES[k]) == NAMES[k] == Map(ToUpper, NAMES[k]) && NAMES[k] != []
    ensures Whole(IsBlank, NAMES[k]) && Whole(IsSpace, NAMES[k])
  {
    if k == 0 {
      NameIsToken("SCRAM-SHA512");
    } else if k == 1 {
      NameIsToken("SCRAM-SHA256");
    } else if k == 2 {
      NameIsToken("SCRAM-SHA1");
    } else {
      NameIsToken("PLAIN");
    }
  }

  lemma NameIsToken(name: string)
    requires forall i :: 0 <= i < |name| ==> 'A' <= name[i] <= 'Z' || '0' <= name[i] <= '9' || name[i] == '-'
    ensures Normalised(name) == name == Map(ToUpper, name) && Whole(IsBlank, name) && Whole(IsSpace, name)
  {
  }

  /** The names of the enabled mechanisms from the i-th on, with a separator before all but the first. */
  function Listed(enabled: seq<bool>, sep: string, i: nat, needSep: bool): string
    requires |enabled| == |NAMES| && i <= |NAMES|
    decreases |NAMES| - i
  {
    if i == |NAMES| then ""
    else if !enabled[i] then Listed(enabled, sep, i + 1, needSep)
    else (if needSep then sep else "") + NAMES[i] + Listed(enabled, sep, i + 1, true)
  }

  /** No mechanism before the k-th is enabled. */
  predicate NoneBefore(enabled: seq<bool>, k: nat) {
    k <= |enabled| && forall j :: 0 <= j < k ==> !enabled[j]
  }

  lemma {:induction false} ListedStart(enabled: seq<bool>, sep: string, i: nat, k: nat)
    requires |enabled| == |NAMES| && i <= k < |NAMES| && NoneBefore(enabled, k) && enabled[k]
    ensures Listed(enabled, sep, i, false) == NAMES[k] + Listed(enabled, sep, k + 1, true)
    decreases k - i
  {
    if i < k {
      ListedStart(enabled, sep, i + 1, k);
    } else {
      assert "" + NAMES[k] == NAMES[k];
    }
  }

  lemma {:induction false} ListedTail(enabled: seq<bool>, sep: string, i: nat)
    requires |enabled| == |NAMES| && i <= |NAMES| && sep != ""
    ensures var tail := Listed(enabled, sep, i, true); tail == "" || tail[0] == sep[0]
    decreases |NAMES| - i
  {
    if i < |NAMES| && !enabled[i] {
      ListedTail(enabled, sep, i + 1);
    }
  }

  lemma TokenBetween(d: char -> bool, a: string, name: string, b: string)
    requires (a == "" || d(a[|a| - 1])) && (b == "" || d(b[0]))
    ensures TokenAt(d, a + name + b, name, |a|)
  {
    PartsOfConcat(a, name, b);
  }

  /** A name between delimiters is a token of the normalised list. */
  lemma {:induction false} NameIsFound(before: string, k: nat, after: string)
    requires k < |NAMES| && (before == "" || Delimiter(before[|before| - 1])) && (after == "" || Delimiter(after[0]))
    ensures NAMES[k] in Split(IsBlank, Normalised(before + NAMES[k] + after))
  {
    var name := NAMES[k];
    NamesAreTokens(k);
    MapConcat(Normal, before + name, after);
    MapConcat(Normal, before, name);
    TokenBetween(IsBlank, Normalised(before), name, Normalised(after));
    TokensArePieces(IsBlank, Normalised(before + name + after), name);
  }

  /** The first enabled mechanism from the i-th on. */
  function Strongest(enabled: seq<bool>, i: nat): (k: nat)
    requires i <= |enabled|
    ensures i <= k <= |enabled| && (k < |enabled| ==> enabled[k]) && forall j :: i <= j < k ==> !enabled[j]
    decreases |enabled| - i
  {
    if i == |enabled| || enabled[i] then i else Strongest(enabled, i + 1)
  }

  lemma {:induction false} StrongestIsFound(enabled: seq<bool>, prefix: string, sep: string, suffix: string, k: nat)
    requires |enabled| == |NAMES| && k < |NAMES| && NoneBefore(enabled, k) && enabled[k]
    requires Separated(prefix, sep, suffix)
    ensures NAMES[k] in Split(IsBlank, Normalised(prefix + Listed(enabled, sep, 0, false) + suffix))
  {
    var tail := Listed(enabled, sep, k + 1, true);
    ListedStart(enabled, sep, 0, k);
    ListedTail(enabled, sep, k + 1);
    assert tail + suffix == "" || (tail + suffix)[0] == if tail == "" then suffix[0] else sep[0];
    NameIsFound(prefix, k, tail + suffix);
    Regrouped(prefix, NAMES[k], tail, suffix);
  }

  lemma Regrouped<T>(a: seq<T>, b: seq<T>, c: seq<T>, d: seq<T>)
    ensures a + (b + c) + d == a + b + (c + d)
  {
  }

  lemma SelectsFirst(enabled: seq<bool>, mechlist: string, m: Mechanism, k: nat)
    requires |enabled| == |NAMES| && k < |NAMES| && NoneBefore(enabled, k) && enabled[k]
    requires Selects(enabled, mechlist, m) && NAMES[k] in Split(IsBlank, Normalised(mechlist))
    ensures m == MECHANISMS[k]
  {
  }

  /** The list's wrapping ends, and its separator and trailer begin, with a space or punctuation other than a hyphen. */
  predicate Separated(prefix: string, sep: string, suffix: string) {
    && sep != "" && Delimiter(sep[0])
    && (prefix == "" || Delimiter(prefix[|prefix| - 1])) && (suffix == "" || Delimiter(suffix[0]))
  }

  /** A client that is shown the server's list picks the strongest mechanism the server has enabled. */
  lemma {:induction false} SelectOfList(enabled: seq<bool>, prefix: string, sep: string, suffix: string, m: Mechanism)
    requires |enabled| == |NAMES| && Separated(prefix, sep, suffix)
    requires Selects(enabled, prefix + Listed(enabled, sep, 0, false) + suffix, m)
    ensures m == if Strongest(enabled, 0) == |NAMES| then Unknown else MECHANISMS[Strongest(enabled, 0)]
  {
    var k := Strongest(enabled, 0);
    if k < |NAMES| {
      StrongestIsFound(enabled, prefix, sep, suffix, k);
      SelectsFirst(enabled, prefix + Listed(enabled, sep, 0, false) + suffix, m, k);
    }
  }

  // ----- two parties -----

  /** Splitting a concatenation: the last piece of one part and the first of the other grow together. */
  lemma {:induction false} SplitConcat(d: char -> bool, a: string, b: string)
    ensures var x, y := Split(d, a), Split(d, b);
            Split(d, a + b) == x[..|x| - 1] + [x[|x| - 1] + y[0]] + y[1..]
  {
    var y := Split(d, b);
    if a == "" {
      assert a + b == b && "" + y[0] == y[0] && [y[0]] + y[1..] == y;
    } else {
      var x := Split(d, a[1..]);
      SplitConcat(d, a[1..], b);
      assert (a + b)[1..] == a[1..] + b && (a + b)[0] == a[0];
      if !d(a[0]) {
        SplitGrows(a[0], x, y);
      }
    }
  }

  lemma SplitGrows(c: char, x: seq<string>, y: seq<string>)
    requires x != [] && y != []
    ensures var whole, z := x[..|x| - 1] + [x[|x| - 1] + y[0]] + y[1..], [[c] + x[0]] + x[1..];
            [[c] + whole[0]] + whole[1..] == z[..|z| - 1] + [z[|z| - 1] + y[0]] + y[1..]
  {
    if |x| == 1 {
      assert [c] + (x[0] + y[0]) == [c] + x[0] + y[0];
    }
  }

  lemma {:induction false} LastPieceEmpty(d: char -> bool, a: string)
    requires a != "" && d(a[|a| - 1])
    ensures Split(d, a)[|Split(d, a)| - 1] == ""
  {
    SplitConcat(d, a[..|a| - 1], [a[|a| - 1]]);
    assert a[..|a| - 1] + [a[|a| - 1]] == a;
    assert Split(d, [a[|a| - 1]]) == ["", ""];
  }

  /** Where two strings meet at a delimiter, the tokens of both together are those of each. */
  lemma {:induction false} TokensTogether(d: char -> bool, a: string, b: string, name: string)
    requires name != "" && (a == "" || b == "" || d(a[|a| - 1]) || d(b[0]))
    ensures name in Split(d, a + b) <==> name in Split(d, a) || name in Split(d, b)
  {
    var x, y := Split(d, a), Split(d, b);
    SplitConcat(d, a, b);
    if a != "" && d(a[|a| - 1]) {
      LastPieceEmpty(d, a);
    }
    assert x == x[..|x| - 1] + [x[|x| - 1]] && y == [y[0]] + y[1..];
    assert a == "" ==> x == [""];
    assert b == "" ==> y == [""];
    assert b != "" && d(b[0]) ==> y[0] == "";
    assert x[|x| - 1] == "" ==> x[|x| - 1] + y[0] == y[0];
    assert y[0] == "" ==> x[|x| - 1] + y[0] == x[|x| - 1];
  }

  /** The mechanism is one of the tokens of the normalised list. */
  ghost predicate Offers(mechlist: string, k: nat)
    requires k < |NAMES|
  {
    NAMES[k] in Split(IsBlank, Normalised(mechlist))
  }

  lemma {:induction false} OffersTogether(a: string, b: string, k: nat)
    requires k < |NAMES| && (a == "" || b == "" || Delimiter(a[|a| - 1]) || Delimiter(b[0]))
    ensures Offers(a + b, k) <==> Offers(a, k) || Offers(b, k)
  {
    NamesAreTokens(k);
    MapConcat(Normal, a, b);
    TokensTogether(IsBlank, Normalised(a), Normalised(b), NAMES[k]);
  }

  lemma {:induction false} NameOffersItself(i: nat, k: nat)
    requires i < |NAMES| && k < |NAMES|
    ensures Offers(NAMES[i], k) <==> i == k
  {
    NamesAreTokens(i);
    SplitBehind(IsBlank, NAMES[i], "");
    assert NAMES[i] + "" == NAMES[i] && Split(IsBlank, "") == [""];
    if i != k {
      DistinctNames(i, k);
    }
  }

  ghost predicate NamesNone(w: string) {
    forall k :: 0 <= k < |NAMES| ==> !Offers(w, k)
  }

  /** A separator that delimits at both ends and names no mechanism. */
  ghost predicate Neutral(sep: string) {
    sep != "" && Delimiter(sep[0]) && Delimiter(sep[|sep| - 1]) && NamesNone(sep)
  }

  /** The separator a server uses unless it is told otherwise, without any wrapping. */
  lemma DefaultIsNeutral()
    ensures Neutral(" ") && Separated("", " ", "") && NamesNone("")
  {
    assert Normalised(" ") == " " && Split(IsBlank, "") == [""] && " "[1..] == "";
    forall k | 0 <= k < |NAMES| ensures !Offers(" ", k) && !Offers("", k) {
      NamesAreTokens(k);
      EmptyOffersNothing(k);
    }
  }

  lemma {:induction false} ListedOffers(enabled: seq<bool>, sep: string, i: nat, needSep: bool, k: nat)
    requires |enabled| == |NAMES| && i <= |NAMES| && k < |NAMES| && Neutral(sep)
    ensures Offers(Listed(enabled, sep, i, needSep), k) <==> i <= k && enabled[k]
    decreases |NAMES| - i
  {
    if i == |NAMES| {
      NamesAreTokens(k);
    } else if !enabled[i] {
      ListedOffers(enabled, sep, i + 1, needSep, k);
    } else {
      var start, rest := if needSep then sep else "", Listed(enabled, sep, i + 1, true);
      ListedOffers(enabled, sep, i + 1, true, k);
      ListedTail(enabled, sep, i + 1);
      OffersTogether(start + NAMES[i], rest, k);
      OffersTogether(start, NAMES[i], k);
      NameOffersItself(i, k);
      EmptyOffersNothing(k);
    }
  }

  lemma EmptyOffersNothing(k: nat)
    requires k < |NAMES|
    ensures !Offers("", k)
  {
    NamesAreTokens(k);
    assert Normalised("") == "";
  }

  /** A mechanism both sides have enabled. */
  function Common(client: seq<bool>, server: seq<bool>): (both: seq<bool>)
    requires |client| == |server|
    ensures |both| == |client| && forall k :: 0 <= k < |client| ==> both[k] == (client[k] && server[k])
  {
    seq(|client|, k requires 0 <= k < |client| => client[k] && server[k])
  }

  lemma {:induction false} ServerListOffers(server: seq<bool>, prefix: string, sep: string, suffix: string, k: nat)
    requires |server| == |NAMES| && k < |NAMES| && Neutral(sep) && Separated(prefix, sep, suffix)
    requires NamesNone(prefix) && NamesNone(suffix)
    ensures Offers(prefix + Listed(server, sep, 0, false) + suffix, k) <==> server[k]
  {
    var list := Listed(server, sep, 0, false);
    ListedOffers(server, sep, 0, false, k);
    OffersTogether(prefix + list, suffix, k);
    OffersTogether(prefix, list, k);
  }

  /** A client shown a server's list picks the strongest mechanism that both of them have enabled. */
  lemma {:induction false} SelectFromPeer(client: seq<bool>, server: seq<bool>, prefix: string, sep: string,
                                          suffix: string, m: Mechanism)
    requires |client| == |server| == |NAMES| && Neutral(sep) && Separated(prefix, sep, suffix)
    requires NamesNone(prefix) && NamesNone(suffix)
    requires Selects(client, prefix + Listed(server, sep, 0, false) + suffix, m)
    ensures var k := Strongest(Common(client, server), 0);
            m == if k == |NAMES| then Unknown else MECHANISMS[k]
  {
    forall k | 0 <= k < |NAMES|
      ensures NAMES[k] in Split(IsBlank, Normalised(prefix + Listed(server, sep, 0, false) + suffix)) <==> server[k] {
      ServerListOffers(server, prefix, sep, suffix, k);
    }
  }

  // ----- configuration -----

  lemma {:induction false} SplitBehind(d: char -> bool, a: string, b: string)
    requires Whole(d, a)
    ensures Split(d, a + b) == [a + Split(d, b)[0]] + Split(d, b)[1..]
  {
    if a == "" {
      var r := Split(d, b);
      assert a + b == b && a + r[0] == r[0] && [r[0]] + r[1..] == r;
    } else {
      SplitBehind(d, a[1..], b);
      assert (a + b)[1..] == a[1..] + b && (a + b)[0] == a[0];
      assert [a[0]] + (a[1..] + Split(d, b)[0]) == a + Split(d, b)[0];
    }
  }

  lemma {:induction false} ListedUpper(enabled: seq<bool>, i: nat, needSep: bool)
    requires |enabled| == |NAMES| && i <= |NAMES|
    ensures Map(ToUpper, Listed(enabled, " ", i, needSep)) == Listed(enabled, " ", i, needSep)
    decreases |NAMES| - i
  {
    if i < |NAMES| {
      if !enabled[i] {
        ListedUpper(enabled, i + 1, needSep);
      } else {
        var a, rest := if needSep then " " else "", Listed(enabled, " ", i + 1, true);
        ListedUpper(enabled, i + 1, true);
        NamesAreTokens(i);
        MapConcat(ToUpper, a + NAMES[i], rest);
        MapConcat(ToUpper, a, NAMES[i]);
      }
    }
  }

  lemma DistinctNames(j: nat, k: nat)
    requires j < |NAMES| && k < |NAMES| && j != k
    ensures NAMES[j] != NAMES[k]
  {
    assert |NAMES[0]| == 12 && |NAMES[1]| == 12 && |NAMES[2]| == 10 && |NAMES[3]| == 5;
    assert NAMES[0][9] != NAMES[1][9];
  }

  /** The words of the list, from the i-th mechanism on, are the enabled names. */
  lemma {:induction false} WordsOfListed(enabled: seq<bool>, i: nat, k: nat)
    requires |enabled| == |NAMES| && i <= |NAMES| && k < |NAMES|
    ensures var r := Split(IsSpace, Listed(enabled, " ", i, true));
            r[0] == "" && (NAMES[k] in r <==> i <= k && enabled[k])
    decreases |NAMES| - i
  {
    NamesAreTokens(k);
    if i < |NAMES| {
      WordsOfListed(enabled, i + 1, k);
      if enabled[i] {
        var r := Split(IsSpace, Listed(enabled, " ", i + 1, true));
        WordsOfNext(enabled, i);
        if i != k {
          DistinctNames(i, k);
        }
        assert r == [r[0]] + r[1..];
      }
    }
  }

  lemma {:induction false} WordsOfNext(enabled: seq<bool>, i: nat)
    requires |enabled| == |NAMES| && i < |NAMES| && enabled[i]
    requires Split(IsSpace, Listed(enabled, " ", i + 1, true))[0] == ""
    ensures var r := Split(IsSpace, Listed(enabled, " ", i + 1, true));
            Split(IsSpace, Listed(enabled, " ", i, true)) == [""] + ([NAMES[i]] + r[1..])
  {
    NamesAreTokens(i);
    WordBehindSpace(IsSpace, NAMES[i], Listed(enabled, " ", i + 1, true));
  }

  lemma {:induction false} WordBehindSpace(d: char -> bool, name: string, rest: string)
    requires d(' ') && Whole(d, name) && Split(d, rest)[0] == ""
    ensures Split(d, " " + name + rest) == [""] + ([name] + Split(d, rest)[1..])
  {
    var s := " " + name + rest;
    SplitBehind(d, name, rest);
    assert name + "" == name && s[1..] == name + rest && s[0] == ' ';
  }

  // ----- the factory -----

  /** Which enabled mechanism a list selects: the first whose name is one of its tokens. */
  ghost predicate Selects(enabled: seq<bool>, mechlist: string, m: Mechanism)
    requires |enabled| == |NAMES|
  {
    var tokens := Split(IsBlank, Normalised(mechlist));
    (m == Unknown && forall k :: 0 <= k < |NAMES| && enabled[k] ==> NAMES[k] !in tokens) ||
    (exists k :: 0 <= k < |NAMES| && m == MECHANISMS[k] && enabled[k] && NAMES[k] in tokens &&
                 forall j :: 0 <= j < k && enabled[j] ==> NAMES[j] !in tokens)
  }

  class MechanismFactory {
    const supported: seq<bool>
    var enabled: seq<bool>

    ghost predicate Valid()
      reads this
    {
      |supported| == |enabled| == |NAMES| && forall k :: 0 <= k < |NAMES| && enabled[k] ==> supported[k]
    }

    constructor (supported: seq<bool>)
      requires |supported| == |NAMES|
      ensures Valid() && this.supported == supported && enabled == supported
    {
      this.supported, enabled := supported, supported;
    }

    /** A mechanism that is not supported on this platform is never enabled. */
    method SetEnabled(k: nat, on: bool)
      requires Valid() && k < |NAMES|
      modifies this
      ensures Valid() && enabled == old(enabled)[k := on && supported[k]]
    {
      enabled := enabled[k := if supported[k] then on else false];
    }

    /** selectMechanism */
    method Select(mechlist: string) returns (m: Mechanism)
      requires Valid()
      ensures Selects(enabled, mechlist, m)
    {
      var uppercase := Normalised(mechlist);
      var k := 0;
      while k < |NAMES|
        invariant k <= |NAMES|
        invariant forall j :: 0 <= j < k && enabled[j] ==> NAMES[j] !in Split(IsBlank, uppercase)
      {
        if enabled[k] {
          var found := ContainsMechanism(uppercase, NAMES[k]);
          NamesAreTokens(k);
          TokensArePieces(IsBlank, uppercase, NAMES[k]);
          if found {
            return MECHANISMS[k];
          }
        }
        k := k + 1;
      }
      return Unknown;
    }

    /** MechanismFactory::list; missing arguments are None. */
    method List(prefix: Option<string>, sep: Option<string>, suffix: Option<string>) returns (r: string, count: nat)
      requires Valid()
      ensures r == Or(prefix, "") + Listed(enabled, Or(sep, " "), 0, false) + Or(suffix, "")
      ensures count == Count(enabled)
    {
      r, count := if prefix.Some? then prefix.value else "", 0;
      var needSep, k := false, 0;
      while k < |NAMES|
        invariant k <= |NAMES| && count == Count(enabled[..k])
        invariant r + Listed(enabled, Or(sep, " "), k, needSep)
                  == Or(prefix, "") + Listed(enabled, Or(sep, " "), 0, false)
      {
        CountNext(enabled, k);
        if enabled[k] {
          ListStep(r, if needSep then Or(sep, " ") else "", NAMES[k], Listed(enabled, Or(sep, " "), k + 1, true));
          r := AppendName(r, sep, needSep, NAMES[k]);
          needSep, count := true, count + 1;
        }
        k := k + 1;
      }
      assert enabled[..k] == enabled && r + "" == r;
      r := r + if suffix.Some? then suffix.value else "";
    }

    static method AppendName(list: string, sep: Option<string>, needSep: bool, name: string) returns (r: string)
      ensures r == list + (if needSep then Or(sep, " ") else "") + name
    {
      r := list;
      if needSep {
        r := r + if sep.None? then " " else sep.value;
      } else {
        assert list + "" == list;
      }
      r := r + name;
    }

    /** cbsasl_set_available_mechanisms; None when the option is not set. */
    method SetAvailable(config: Option<string>)
      requires Valid()
      modifies this
      ensures Valid() && (config.None? ==> enabled == old(enabled))
      ensures config.Some? ==> forall k :: 0 <= k < |NAMES| ==>
                (enabled[k] <==> supported[k] && NAMES[k] in Split(IsSpace, Map(ToUpper, config.value)))
    {
      if config.None? {
        return;
      }
      var k := 0;
      while k < |NAMES|
        invariant k <= |NAMES| && Valid() && NoneBefore(enabled, k)
      {
        SetEnabled(k, false);
        k := k + 1;
      }
      var tokens := Split(IsSpace, Map(ToUpper, config.value));
      var i := 0;
      while i < |tokens|
        invariant i <= |tokens| && Valid()
        invariant forall k :: 0 <= k < |NAMES| ==> (enabled[k] <==> supported[k] && NAMES[k] in tokens[..i])
      {
        EnableNamed(tokens[i]);
        assert tokens[..i + 1] == tokens[..i] + [tokens[i]];
        i := i + 1;
      }
      assert tokens[..i] == tokens;
    }

    method EnableNamed(token: string)
      requires Valid()
      modifies this
      ensures Valid()
      ensures forall k :: 0 <= k < |NAMES| ==> (enabled[k] <==> old(enabled[k]) || (supported[k] && NAMES[k] == token))
    {
      var k := 0;
      while k < |NAMES|
        invariant k <= |NAMES| && Valid()
        invariant forall j :: 0 <= j < |NAMES| ==>
                    (enabled[j] <==> old(enabled[j]) || (j < k && supported[j] && NAMES[j] == token))
      {
        if NAMES[k] == token {
          SetEnabled(k, true);
        }
        k := k + 1;
      }
    }

    /** Configuring a server with the list of another one on the same platform enables the same mechanisms. */
    method ListThenSetAvailable()
      requires Valid()
      modifies this
      ensures Valid() && enabled == old(enabled)
    {
      var r, _ := List(None, None, None);
      ListedWords(enabled);
      assert r == Listed(enabled, " ", 0, false);
      SetAvailable(Some(r));
    }
  }

  function Or(s: Option<string>, other: string): string {
    if s.None? then other else s.value
  }

  function Count(enabled: seq<bool>): nat {
    if enabled == [] then 0 else Count(enabled[..|enabled| - 1]) + if enabled[|enabled| - 1] then 1 else 0
  }

  lemma CountNext(enabled: seq<bool>, k: nat)
    requires k < |enabled|
    ensures Count(enabled[..k + 1]) == Count(enabled[..k]) + if enabled[k] then 1 else 0
  {
    assert enabled[..k + 1][..k] == enabled[..k];
  }

  lemma ListStep(r: string, sep: string, name: string, rest: string)
    ensures r + (sep + name + rest) == r + sep + name + rest && (sep == "" ==> r + sep == r)
  {
  }

  lemma {:induction false} ListedWords(enabled: seq<bool>)
    requires |enabled| == |NAMES|
    ensures var words := Split(IsSpace, Map(ToUpper, Listed(enabled, " ", 0, false)));
            forall k :: 0 <= k < |NAMES| ==> (NAMES[k] in words <==> enabled[k])
  {
    ListedUpper(enabled, 0, false);
    forall k | 0 <= k < |NAMES| ensures NAMES[k] in Split(IsSpace, Listed(enabled, " ", 0, false)) <==> enabled[k] {
      WordOfList(enabled, k);
    }
  }

  lemma {:induction false} WordOfList(enabled: seq<bool>, k: nat)
    requires |enabled| == |NAMES| && k < |NAMES|
    ensures NAMES[k] in Split(IsSpace, Listed(enabled, " ", 0, false)) <==> enabled[k]
  {
    var i := Strongest(enabled, 0);
    NamesAreTokens(k);
    if i == |NAMES| {
      ListedNone(enabled, 0);
    } else {
      var r := Split(IsSpace, Listed(enabled, " ", i + 1, true));
      ListedStart(enabled, " ", 0, i);
      WordsOfListed(enabled, i + 1, k);
      NamesAreTokens(i);
      SplitBehind(IsSpace, NAMES[i], Listed(enabled, " ", i + 1, true));
      assert NAMES[i] + "" == NAMES[i] && r == [""] + r[1..];
      if i != k {
        DistinctNames(i, k);
      }
    }
  }

  lemma {:induction false} ListedNone(enabled: seq<bool>, i: nat)
    requires |enabled| == |NAMES| && i <= |NAMES| && NoneBefore(enabled, |enabled|)
    ensures Listed(enabled, " ", i, false) == ""
    decreases |NAMES| - i
  {
    if i < |NAMES| {
      ListedNone(enabled, i + 1);
    }
  }
}
