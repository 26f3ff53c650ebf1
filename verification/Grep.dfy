/** user/grep.c: the regular-expression matcher, against the language of the pattern. */
module Grep {
  /** One(c) is a character or '.', Star(c) any number of them, End a final '$'. */
  datatype Item = One(c: char) | Star(c: char) | End

  /** What a pattern means, item by item: a star applies to the character before it, so a
      leading '*' is a character; '$' is special only at the very end. */
  function Parse(re: string): seq<Item> {
    if re == "" then []
    else if |re| >= 2 && re[1] == '*' then [Star(re[0])] + Parse(re[2..])
    else if re == "$" then [End]
    else [One(re[0])] + Parse(re[1..])
  }

  function Text(item: Item): string {
    match item
    case One(c) => [c]
    case Star(c) => [c, '*']
    case End => "$"
  }

  function Unparse(items: seq<Item>): string {
    if items == [] then "" else Text(items[0]) + Unparse(items[1..])
  }

  /** The items that a pattern may be read as: no character before a '*' stands for itself,
      and a '$' is an End exactly when it comes last. */
  ghost predicate Readable(items: seq<Item>) {
    items != [] ==>
      var rest := Unparse(items[1..]);
      && Readable(items[1..])
      && match items[0]
         case One(c) => if rest == "" then c != '$' else rest[0] != '*'
         case Star(c) => true
         case End => rest == ""
  }

  /** The items spell the pattern. */
  lemma {:induction false} ParseSpells(re: string)
    ensures Unparse(Parse(re)) == re && Readable(Parse(re))
  {
    if |re| >= 2 && re[1] == '*' {
      ParseSpells(re[2..]);
      assert Parse(re)[1..] == Parse(re[2..]);
    } else if re != "" && re != "$" {
      ParseSpells(re[1..]);
      assert Parse(re)[1..] == Parse(re[1..]);
    }
  }

  /** And no other items do: the reading of a pattern is unique. */
  lemma {:induction false} OneReading(items: seq<Item>)
    requires Readable(items)
    ensures Parse(Unparse(items)) == items
  {
    if items != [] {
      OneReading(items[1..]);
      var re := Unparse(items);
      match items[0]
      case Star(c) => assert re[2..] == Unparse(items[1..]);
      case One(c) =>
        assert re[1..] == Unparse(items[1..]);
      case End =>
    }
  }

  lemma ParseIsTheReading(re: string, items: seq<Item>)
    ensures items == Parse(re) <==> Readable(items) && Unparse(items) == re
  {
    ParseSpells(re);
    if Readable(items) { OneReading(items); }
  }

  predicate Fits(c: char, x: char) {
    c == '.' || c == x
  }

  /** The language of one item. */
  ghost predicate ItemMatches(item: Item, s: string) {
    match item
    case One(c) => |s| == 1 && Fits(c, s[0])
    case Star(c) => forall i :: 0 <= i < |s| ==> Fits(c, s[i])
    case End => s == ""
  }

  function Concat(parts: seq<string>): string {
    if parts == [] then "" else parts[0] + Concat(parts[1..])
  }

  /** parts is a way of reading s as the items one after the other. */
  ghost predicate Reads(items: seq<Item>, parts: seq<string>, s: string) {
    |parts| == |items| && Concat(parts) == s && forall i :: 0 <= i < |items| ==> ItemMatches(items[i], parts[i])
  }

  /** The language of a sequence of items: concatenations of what they match. */
  ghost predicate InLanguage(items: seq<Item>, s: string) {
    exists parts :: Reads(items, parts, s)
  }

  predicate Anchored(items: seq<Item>) {
    items != [] && items[|items| - 1] == End
  }

  /** Some prefix of text, all of it if a '$' says so, is in the language. */
  ghost predicate PrefixMatches(items: seq<Item>, text: string) {
    exists j :: 0 <= j <= |text| && InLanguage(items, text[..j]) && (Anchored(items) ==> j == |text|)
  }

  /** The meaning of grep's pattern: some part of the text is in the language, starting at
      the front if there is a '^'. */
  ghost predicate Matches(re: string, text: string) {
    if re != "" && re[0] == '^' then PrefixMatches(Parse(re[1..]), text)
    else exists i :: 0 <= i <= |text| && PrefixMatches(Parse(re), text[i..])
  }

  // ------------------------------------------------------------ the language, item by item

  lemma EmptyLanguage(s: string)
    ensures InLanguage([], s) <==> s == ""
  {
    assert Reads([], [], "");
  }

  lemma FirstItem(items: seq<Item>, s: string, k: nat)
    requires items != [] && k <= |s| && ItemMatches(items[0], s[..k]) && InLanguage(items[1..], s[k..])
    ensures InLanguage(items, s)
  {
    var parts :| Reads(items[1..], parts, s[k..]);
    var all := [s[..k]] + parts;
    assert all[1..] == parts && s[..k] + s[k..] == s;
    assert Reads(items, all, s);
  }

  lemma SplitFirst(items: seq<Item>, s: string) returns (k: nat)
    requires items != [] && InLanguage(items, s)
    ensures k <= |s| && ItemMatches(items[0], s[..k]) && InLanguage(items[1..], s[k..])
  {
    var parts :| Reads(items, parts, s);
    k := |parts[0]|;
    assert s == parts[0] + Concat(parts[1..]);
    assert s[..k] == parts[0] && s[k..] == Concat(parts[1..]);
    assert Reads(items[1..], parts[1..], s[k..]);
  }

  lemma NoItems(text: string)
    ensures PrefixMatches([], text)
  {
    EmptyLanguage(text[..0]);
  }

  lemma OnlyEnd(text: string)
    ensures PrefixMatches([End], text) <==> text == ""
  {
    if PrefixMatches([End], text) {
      var j :| 0 <= j <= |text| && InLanguage([End], text[..j]) && j == |text|;
      var k := SplitFirst([End], text[..j]);
      EmptyLanguage(text[..j][k..]);
    }
    if text == "" {
      EmptyLanguage(""[0..]);
      assert [End][1..] == [];
      FirstItem([End], "", 0);
      assert text[..0] == "";
    }
  }

  /** A prefix matches if and only if its first k characters match the first item and the
      rest matches the other items, for some k. */
  lemma PrefixByFirst(items: seq<Item>, text: string, k: nat)
    requires items != [] && items[0] != End && k <= |text| && ItemMatches(items[0], text[..k]) && PrefixMatches(items[1..], text[k..])
    ensures PrefixMatches(items, text)
  {
    var j :| 0 <= j <= |text| - k && InLanguage(items[1..], text[k..][..j]) && (Anchored(items[1..]) ==> j == |text| - k);
    assert text[..k + j][..k] == text[..k] && text[..k + j][k..] == text[k..][..j];
    FirstItem(items, text[..k + j], k);
  }

  lemma FirstOfPrefix(items: seq<Item>, text: string) returns (k: nat)
    requires items != [] && items[0] != End && PrefixMatches(items, text)
    ensures k <= |text| && ItemMatches(items[0], text[..k]) && PrefixMatches(items[1..], text[k..])
  {
    var j :| 0 <= j <= |text| && InLanguage(items, text[..j]) && (Anchored(items) ==> j == |text|);
    k := SplitFirst(items, text[..j]);
    assert text[..j][..k] == text[..k] && text[..j][k..] == text[k..][..j - k];
  }

  lemma OneMatches(c: char, items: seq<Item>, text: string)
    ensures PrefixMatches([One(c)] + items, text) <==> text != "" && Fits(c, text[0]) && PrefixMatches(items, text[1..])
  {
    var all := [One(c)] + items;
    assert all[1..] == items;
    if PrefixMatches(all, text) {
      var k := FirstOfPrefix(all, text);
    }
    if text != "" && Fits(c, text[0]) && PrefixMatches(items, text[1..]) {
      PrefixByFirst(all, text, 1);
    }
  }

  /** The first k characters of the text may all be read by the star. */
  ghost predicate StarAt(c: char, items: seq<Item>, text: string, k: nat) {
    k <= |text| && (forall i :: 0 <= i < k ==> Fits(c, text[i])) && PrefixMatches(items, text[k..])
  }

  lemma StarMatches(c: char, items: seq<Item>, text: string)
    ensures PrefixMatches([Star(c)] + items, text) <==> exists k: nat :: StarAt(c, items, text, k)
  {
    var all := [Star(c)] + items;
    assert all[1..] == items;
    if PrefixMatches(all, text) {
      var k := FirstOfPrefix(all, text);
      assert forall i :: 0 <= i < k ==> text[..k][i] == text[i];
      assert StarAt(c, items, text, k);
    }
    if k: nat :| StarAt(c, items, text, k) {
      PrefixByFirst(all, text, k);
    }
  }

  // ------------------------------------------------------------ the code

  method MatchHere(re: string, text: string) returns (r: bool)
    ensures r <==> PrefixMatches(Parse(re), text)
    decreases |re|, 0
  {
    if re == "" {
      NoItems(text);
      return true;
    }
    if |re| >= 2 && re[1] == '*' {
      r := MatchStar(re[0], re[2..], text);
      return;
    }
    if re[0] == '$' && |re| == 1 {
      OnlyEnd(text);
      return text == "";
    }
    OneMatches(re[0], Parse(re[1..]), text);
    if text != "" && (re[0] == '.' || re[0] == text[0]) {
      r := MatchHere(re[1..], text[1..]);
      return;
    }
    return false;
  }

  method MatchStar(c: char, re: string, text: string) returns (r: bool)
    ensures r <==> PrefixMatches([Star(c)] + Parse(re), text)
    decreases |re|, 1
  {
    StarMatches(c, Parse(re), text);
    var k := 0;
    while true
      invariant k <= |text| && (forall i :: 0 <= i < k ==> Fits(c, text[i]))
      invariant forall j: nat :: j < k ==> !StarAt(c, Parse(re), text, j)
      decreases |text| - k
    {
      var here := MatchHere(re, text[k..]);
      if here {
        assert StarAt(c, Parse(re), text, k);
        return true;
      }
      if !(k < |text| && (text[k] == c || c == '.')) { break; }
      k := k + 1;
    }
    return false;
  }

  /** match: 1 exactly when the text has a part in the pattern's language. */
  method Match(re: string, text: string) returns (r: bool)
    ensures r <==> Matches(re, text)
  {
    if re != "" && re[0] == '^' {
      r := MatchHere(re[1..], text);
      return;
    }
    var i := 0;
    while true
      invariant i <= |text| && forall j :: 0 <= j < i ==> !PrefixMatches(Parse(re), text[j..])
      decreases |text| - i
    {
      var here := MatchHere(re, text[i..]);
      if here { return true; }
      if i == |text| { break; }
      i := i + 1;
    }
    return false;
  }
}
