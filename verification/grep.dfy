/** The pattern matcher and line filter of user/grep.c. C strings are sequences without their final NUL. */
module Grep {

  // ----- Meaning of patterns -----

  /** One character, or any number of them; '.' stands for every character. */
  datatype Item = One(c: char) | Star(c: char)

  /** A sequence of items, to be followed by the end of the text if `end`. */
  datatype Pattern = Pattern(items: seq<Item>, end: bool)

  predicate Accepts(c: char, x: char) {
    c == '.' || c == x
  }

  /** The words an item stands for. */
  predicate InItem(it: Item, w: string) {
    match it
    case One(c) => |w| == 1 && Accepts(c, w[0])
    case Star(c) => forall k :: 0 <= k < |w| ==> Accepts(c, w[k])
  }

  /** The words a sequence of items stands for: concatenations of words of the items. */
  ghost predicate InItems(items: seq<Item>, w: string) {
    if items == [] then w == ""
    else exists j :: 0 <= j <= |w| && InItem(items[0], w[..j]) && InItems(items[1..], w[j..])
  }

  /** How a pattern is read, after a leading '^' is removed. */
  function Parse(re: string): Pattern {
    if re == "" then Pattern([], false)
    else if |re| > 1 && re[1] == '*' then
      var rest := Parse(re[2..]);
      rest.(items := [Star(re[0])] + rest.items)
    else if re == "$" then Pattern([], true)
    else
      var rest := Parse(re[1..]);
      rest.(items := [One(re[0])] + rest.items)
  }

  /** Some beginning of the text is a word of the pattern; all of it, if the pattern ends in '$'. */
  ghost predicate Begins(p: Pattern, text: string) {
    exists k :: 0 <= k <= |text| && InItems(p.items, text[..k]) && (p.end ==> k == |text|)
  }

  /** Some part of the text is a word of the pattern; a beginning, if it starts with '^'. */
  ghost predicate Occurs(re: string, text: string) {
    if re != "" && re[0] == '^' then Begins(Parse(re[1..]), text)
    else exists i :: 0 <= i <= |text| && Begins(Parse(re), text[i..])
  }

  // ----- The first item of a pattern -----

  lemma ConsForward(it: Item, p: Pattern, text: string) returns (j: nat)
    requires Begins(p.(items := [it] + p.items), text)
    ensures j <= |text| && InItem(it, text[..j]) && Begins(p, text[j..])
  {
    var items := [it] + p.items;
    var k :| 0 <= k <= |text| && InItems(items, text[..k]) && (p.end ==> k == |text|);
    assert items[1..] == p.items;
    var i :| 0 <= i <= k && InItem(it, text[..k][..i]) && InItems(p.items, text[..k][i..]);
    j := i;
    assert text[..k][..j] == text[..j];
    assert text[..k][j..] == text[j..][..k - j];
  }

  lemma ConsBackward(it: Item, p: Pattern, text: string, j: nat)
    requires j <= |text| && InItem(it, text[..j]) && Begins(p, text[j..])
    ensures Begins(p.(items := [it] + p.items), text)
  {
    var items := [it] + p.items;
    var k :| 0 <= k <= |text[j..]| && InItems(p.items, text[j..][..k]) && (p.end ==> k == |text[j..]|);
    var w := text[..j + k];
    assert items[1..] == p.items;
    assert w[..j] == text[..j];
    assert w[j..] == text[j..][..k];
    assert InItems(items, w);
  }

  /** A pattern begins a text exactly when its first item takes some beginning and the rest begins what follows. */
  lemma Cons(it: Item, p: Pattern, text: string)
    ensures Begins(p.(items := [it] + p.items), text) <==>
      exists j :: 0 <= j <= |text| && InItem(it, text[..j]) && Begins(p, text[j..])
  {
    if Begins(p.(items := [it] + p.items), text) {
      var j := ConsForward(it, p, text);
    }
    if j :| 0 <= j <= |text| && InItem(it, text[..j]) && Begins(p, text[j..]) {
      ConsBackward(it, p, text, j);
    }
  }

  lemma OneCons(c: char, p: Pattern, text: string)
    ensures Begins(p.(items := [One(c)] + p.items), text) <==> text != "" && Accepts(c, text[0]) && Begins(p, text[1..])
  {
    Cons(One(c), p, text);
    if text != "" {
      assert |text[..1]| == 1 && text[..1][0] == text[0];
      assert InItem(One(c), text[..1]) <==> Accepts(c, text[0]);
    }
  }

  lemma EmptyBegins(p: Pattern, text: string)
    requires p.items == []
    ensures Begins(p, text) <==> !p.end || text == ""
  {
    if !p.end || text == "" {
      assert InItems([], text[..0]);
    }
    if Begins(p, text) {
      var k :| 0 <= k <= |text| && InItems(p.items, text[..k]) && (p.end ==> k == |text|);
      assert text[..k] == "";
    }
  }

  // ----- The matcher -----

  /** match. */
  method Match(re: string, text: string) returns (r: bool)
    ensures r <==> Occurs(re, text)
  {
    if re != "" && re[0] == '^' {
      r := MatchHere(re[1..], text);
      return;
    }
    var i := 0;
    while true
      invariant 0 <= i <= |text|
      invariant forall j :: 0 <= j < i ==> !Begins(Parse(re), text[j..])
      decreases |text| - i
    {
      r := MatchHere(re, text[i..]);
      if r {
        return;
      }
      if i == |text| {
        break;
      }
      i := i + 1;
    }
  }

  /** matchhere: the pattern begins the text. */
  method MatchHere(re: string, text: string) returns (r: bool)
    ensures r <==> Begins(Parse(re), text)
    decreases |re|, 0
  {
    if re == "" {
      EmptyBegins(Parse(re), text);
      return true;
    }
    if |re| > 1 && re[1] == '*' {
      r := MatchStar(re[0], re[2..], text);
      return;
    }
    if re == "$" {
      EmptyBegins(Parse(re), text);
      return text == "";
    }
    OneCons(re[0], Parse(re[1..]), text);
    if text != "" && (re[0] == '.' || re[0] == text[0]) {
      r := MatchHere(re[1..], text[1..]);
      return;
    }
    r := false;
  }

  /** matchstar: c* followed by the rest of the pattern begins the text. */
  method MatchStar(c: char, re: string, text: string) returns (r: bool)
    ensures r <==> Begins(Parse(re).(items := [Star(c)] + Parse(re).items), text)
    decreases |re|, 1
  {
    Cons(Star(c), Parse(re), text);
    var i := 0;
    while true
      invariant 0 <= i <= |text| && InItem(Star(c), text[..i])
      invariant forall j :: 0 <= j < i ==> !Begins(Parse(re), text[j..])
      decreases |text| - i
    {
      r := MatchHere(re, text[i..]);
      if r {
        return;
      }
      if i == |text| || !(text[i] == c || c == '.') {
        forall j | i < j <= |text|
          ensures !InItem(Star(c), text[..j])
        {
          assert text[..j][i] == text[i];
        }
        break;
      }
      i := i + 1;
    }
  }

  // ----- Laws of the pattern language -----

  lemma ParseStep(re: string)
    requires |re| > 1
    ensures
      var n := if re[1] == '*' then 2 else 1;
      Parse(re) == Pattern([if n == 2 then Star(re[0]) else One(re[0])] + Parse(re[n..]).items, Parse(re[n..]).end)
  {
  }

  /** Two patterns with the same first item, the rest of which reads as the same but for y. */
  lemma SplitStep(re: string, a: string, n: nat, y: seq<Item>)
    requires |re| > 1 && |a| > 1 && re[0] == a[0] && n == (if re[1] == '*' then 2 else 1) == if a[1] == '*' then 2 else 1
    requires Parse(re[n..]) == Pattern(Parse(a[n..]).items + y, true)
    ensures Parse(re) == Pattern(Parse(a).items + y, true)
  {
    hide Parse;
    ParseStep(re);
    ParseStep(a);
    Assoc([if n == 2 then Star(re[0]) else One(re[0])], Parse(a[n..]).items, y);
  }

  lemma Assoc(x: seq<Item>, y: seq<Item>, z: seq<Item>)
    ensures x + (y + z) == (x + y) + z
  {
  }

  /** A pattern in front of more text is read to its end first. */
  lemma {:induction false} ParseSplit(a: string, b: string)
    requires b == "" || b[0] != '*'
    ensures Parse(a + b + "$") == Pattern(Parse(a + "$").items + Parse(b + "$").items, true)
  {
    if a == "" {
      assert a + b + "$" == b + "$" && a + "$" == "$";
      ParseEnds(b);
    } else {
      hide Parse;
      var n := if |a| > 1 && a[1] == '*' then 2 else 1;
      assert (a + b + "$")[n..] == a[n..] + b + "$";
      assert (a + "$")[n..] == a[n..] + "$";
      ParseSplit(a[n..], b);
      SplitStep(a + b + "$", a + "$", n, Parse(b + "$").items);
    }
  }

  lemma {:induction false} ParseEnds(a: string)
    ensures Parse(a + "$").end
  {
    if a != "" {
      var n := if |a| > 1 && a[1] == '*' then 2 else 1;
      assert (a + "$")[n..] == a[n..] + "$";
      ParseEnds(a[n..]);
    }
  }

  lemma {:induction false} ParseOpen(re: string)
    requires re == "" || re[|re| - 1] != '$'
    ensures !Parse(re).end && Parse(re + "$") == Parse(re).(end := true)
  {
    if re != "" {
      var n := if |re| > 1 && re[1] == '*' then 2 else 1;
      assert (re + "$")[n..] == re[n..] + "$";
      ParseOpen(re[n..]);
    }
  }

  lemma {:induction false} ConcatForward(x: seq<Item>, y: seq<Item>, w: string) returns (k: nat)
    requires InItems(x + y, w)
    ensures k <= |w| && InItems(x, w[..k]) && InItems(y, w[k..])
    decreases x
  {
    if x == [] {
      assert x + y == y && w[0..] == w && w[..0] == "";
      k := 0;
    } else {
      hide InItem;
      assert (x + y)[0] == x[0] && (x + y)[1..] == x[1..] + y;
      var j :| 0 <= j <= |w| && InItem(x[0], w[..j]) && InItems(x[1..] + y, w[j..]);
      var i := ConcatForward(x[1..], y, w[j..]);
      SplitTwice(w, j, i);
      k := j + i;
    }
  }

  lemma {:induction false} ConcatBackward(x: seq<Item>, y: seq<Item>, w: string, k: nat)
    requires k <= |w| && InItems(x, w[..k]) && InItems(y, w[k..])
    ensures InItems(x + y, w)
    decreases x
  {
    if x == [] {
      assert x + y == y && w[k..] == w;
    } else {
      var j :| 0 <= j <= k && InItem(x[0], w[..k][..j]) && InItems(x[1..], w[..k][j..]);
      hide InItem, InItems;
      SplitTwice(w, j, k - j);
      ConcatBackward(x[1..], y, w[j..], k - j);
      ConsIn(x[0], x[1..] + y, w, j);
      Assoc([x[0]], x[1..], y);
      assert [x[0]] + x[1..] == x;
    }
  }

  lemma ConsIn(it: Item, rest: seq<Item>, w: string, j: nat)
    requires j <= |w| && InItem(it, w[..j]) && InItems(rest, w[j..])
    ensures InItems([it] + rest, w)
  {
    hide InItem;
    assert ([it] + rest)[1..] == rest;
  }

  lemma InItemsConcat(x: seq<Item>, y: seq<Item>, w: string)
    ensures InItems(x + y, w) <==> exists k :: 0 <= k <= |w| && InItems(x, w[..k]) && InItems(y, w[k..])
  {
    hide InItems;
    if InItems(x + y, w) {
      var k := ConcatForward(x, y, w);
    }
    if k :| 0 <= k <= |w| && InItems(x, w[..k]) && InItems(y, w[k..]) {
      ConcatBackward(x, y, w, k);
    }
  }

  lemma SplitTwice(w: string, j: nat, i: nat)
    requires j + i <= |w|
    ensures w[..j + i][..j] == w[..j] && w[..j + i][j..] == w[j..][..i] && w[j..][i..] == w[j + i..]
  {
  }

  /** Between '^' and '$' a pattern stands for whole texts. */
  lemma WholeText(re: string, t: string)
    ensures Occurs("^" + re + "$", t) <==> InItems(Parse(re + "$").items, t)
  {
    assert ("^" + re + "$")[1..] == re + "$";
    ParseEnds(re);
    assert t[..|t|] == t;
  }

  /** Concatenation: the first pattern takes some beginning of the text and the second the rest. */
  lemma ConcatLaw(a: string, b: string, t: string)
    requires b == "" || b[0] != '*'
    ensures Occurs("^" + a + b + "$", t) <==>
      exists k :: 0 <= k <= |t| && Occurs("^" + a + "$", t[..k]) && Occurs("^" + b + "$", t[k..])
  {
    hide Occurs;
    assert "^" + a + b + "$" == "^" + (a + b) + "$";
    WholeText(a + b, t);
    ParseSplit(a, b);
    InItemsConcat(Parse(a + "$").items, Parse(b + "$").items, t);
    forall k | 0 <= k <= |t|
      ensures Occurs("^" + a + "$", t[..k]) <==> InItems(Parse(a + "$").items, t[..k])
      ensures Occurs("^" + b + "$", t[k..]) <==> InItems(Parse(b + "$").items, t[k..])
    {
      WholeText(a, t[..k]);
      WholeText(b, t[k..]);
    }
  }

  /** The empty pattern stands for the empty text. */
  lemma EmptyLaw(t: string)
    ensures Occurs("^$", t) <==> t == ""
  {
    assert "^$" == "^" + "" + "$" && "" + "$" == "$";
    WholeText("", t);
  }

  /** One character stands for itself, and '.' for every character. */
  lemma CharLaw(c: char, t: string)
    ensures Occurs("^" + [c] + "$", t) <==> |t| == 1 && (c == '.' || c == t[0])
  {
    WholeText([c], t);
    assert ([c] + "$")[1..] == "$";
    assert Parse([c] + "$").items == [One(c)];
    OneItem(One(c), t);
  }

  /** c* stands for any number of them. */
  lemma StarLaw(c: char, t: string)
    ensures Occurs("^" + [c] + "*" + "$", t) <==> forall k :: 0 <= k < |t| ==> c == '.' || c == t[k]
  {
    assert "^" + [c] + "*" + "$" == "^" + ([c] + "*") + "$";
    WholeText([c] + "*", t);
    assert ([c] + "*" + "$")[2..] == "$";
    assert Parse([c] + "*" + "$").items == [Star(c)];
    OneItem(Star(c), t);
  }

  lemma OneItem(it: Item, t: string)
    ensures InItems([it], t) <==> InItem(it, t)
  {
    assert t[..|t|] == t && t[|t|..] == "";
    assert [it][1..] == [];
    if InItems([it], t) {
      var j :| 0 <= j <= |t| && InItem(it, t[..j]) && InItems([], t[j..]);
      assert t[..j] == t;
    }
  }

  /** Without '^' a pattern may begin anywhere. */
  lemma StartLaw(re: string, t: string)
    requires re == "" || re[0] != '^'
    ensures Occurs(re, t) <==> exists i :: 0 <= i <= |t| && Occurs("^" + re, t[i..])
  {
    assert ("^" + re)[1..] == re;
  }

  /** Without '$' it may end anywhere. */
  lemma EndLaw(re: string, t: string)
    requires re == "" || re[|re| - 1] != '$'
    ensures Occurs("^" + re, t) <==> exists k :: 0 <= k <= |t| && Occurs("^" + re + "$", t[..k])
  {
    assert ("^" + re)[1..] == re;
    ParseOpen(re);
    forall k | 0 <= k <= |t|
      ensures Occurs("^" + re + "$", t[..k]) <==> InItems(Parse(re).items, t[..k])
    {
      WholeText(re, t[..k]);
    }
  }

  // ----- Words -----

  /** No character with a meaning of its own, except '.'. */
  predicate IsWord(w: string) {
    '*' !in w && '^' !in w && '$' !in w
  }

  /** Equal but for the characters that '.' stands for. */
  predicate Like(w: string, t: string) {
    |t| == |w| && forall k :: 0 <= k < |w| ==> w[k] == '.' || w[k] == t[k]
  }

  lemma {:induction false} WholeWord(w: string, t: string)
    requires IsWord(w)
    ensures Occurs("^" + w + "$", t) <==> Like(w, t)
  {
    hide Occurs;
    if w == "" {
      assert "^" + w + "$" == "^$";
      EmptyLaw(t);
    } else {
      var c, rest := w[0], w[1..];
      assert "^" + w + "$" == "^" + [c] + rest + "$";
      ConcatLaw([c], rest, t);
      forall k | 0 <= k <= |t|
        ensures Occurs("^" + [c] + "$", t[..k]) <==> k == 1 && (c == '.' || c == t[0])
        ensures Occurs("^" + rest + "$", t[k..]) <==> Like(rest, t[k..])
      {
        CharLaw(c, t[..k]);
        WholeWord(rest, t[k..]);
      }
      LikeCons(w, t);
    }
  }

  lemma LikeCons(w: string, t: string)
    requires w != ""
    ensures Like(w, t) <==> t != "" && (w[0] == '.' || w[0] == t[0]) && Like(w[1..], t[1..])
  {
    if t != "" && (w[0] == '.' || w[0] == t[0]) && Like(w[1..], t[1..]) {
      forall k | 0 <= k < |w|
        ensures w[k] == '.' || w[k] == t[k]
      {
        if k > 0 {
          assert w[1..][k - 1] == w[k] && t[1..][k - 1] == t[k];
        }
      }
    }
  }

  /** A word, with '.' for any character, matches the whole text, its beginning, its end or a part of it. */
  lemma WordLaws(w: string, t: string)
    requires IsWord(w)
    ensures Occurs("^" + w + "$", t) <==> Like(w, t)
    ensures Occurs("^" + w, t) <==> |w| <= |t| && Like(w, t[..|w|])
    ensures Occurs(w + "$", t) <==> |w| <= |t| && Like(w, t[|t| - |w|..])
    ensures Occurs(w, t) <==> exists i :: 0 <= i <= |t| - |w| && Like(w, t[i..][..|w|])
  {
    hide Occurs;
    WholeWord(w, t);
    WordBegins(w, t);
    assert "^" + (w + "$") == "^" + w + "$";
    StartLaw(w + "$", t);
    StartLaw(w, t);
    forall i | 0 <= i <= |t|
      ensures Occurs("^" + (w + "$"), t[i..]) <==> Like(w, t[i..])
      ensures Occurs("^" + w, t[i..]) <==> i <= |t| - |w| && Like(w, t[i..][..|w|])
    {
      WholeWord(w, t[i..]);
      WordBegins(w, t[i..]);
    }
  }

  lemma WordBegins(w: string, t: string)
    requires IsWord(w)
    ensures Occurs("^" + w, t) <==> |w| <= |t| && Like(w, t[..|w|])
  {
    hide Occurs;
    EndLaw(w, t);
    forall k | 0 <= k <= |t|
      ensures Occurs("^" + w + "$", t[..k]) <==> Like(w, t[..k])
    {
      WholeWord(w, t[..k]);
    }
  }

  /** A word of plain characters is found exactly where it stands. */
  lemma PlainWord(w: string, t: string)
    requires IsWord(w) && '.' !in w
    ensures Occurs("^" + w + "$", t) <==> t == w
    ensures Occurs("^" + w, t) <==> w <= t
    ensures Occurs(w + "$", t) <==> |w| <= |t| && t[|t| - |w|..] == w
    ensures Occurs(w, t) <==> exists i :: 0 <= i <= |t| - |w| && w <= t[i..]
  {
    hide Occurs;
    WordLaws(w, t);
    assert forall u :: Like(w, u) <==> u == w;
    assert |w| <= |t| ==> (t[..|w|] == w <==> w <= t);
  }

  // ----- The line filter -----

  const BUFSIZE := 1024

  /** Index of the first newline, or the length of the string. */
  function Newline(s: string): (q: nat)
    ensures q <= |s| && (forall k :: 0 <= k < q ==> s[k] != '\n') && (q < |s| ==> s[q] == '\n')
  {
    if s == "" || s[0] == '\n' then 0 else 1 + Newline(s[1..])
  }

  /** What a line filter is for: the newline-ended lines that match. */
  ghost function Matches(re: string, s: string): string
    decreases |s|
  {
    var q := Newline(s);
    if q == |s| then "" else (if Occurs(re, s[..q]) then s[..q + 1] else "") + Matches(re, s[q + 1..])
  }

  /** A line that fits the buffer and is not cut by a NUL. */
  predicate Fits(line: string) {
    |line| < BUFSIZE - 1 && '\0' !in line
  }

  /** What grep prints: the newline-ended lines that match, up to the first one that does not fit. */
  ghost function Output(re: string, s: string): string
    decreases |s|
  {
    var q := Newline(s);
    if q == |s| || !Fits(s[..q]) then ""
    else (if Occurs(re, s[..q]) then s[..q + 1] else "") + Output(re, s[q + 1..])
  }

  /** Line by line: what one newline-ended line adds to the output, and to the matching lines. */
  lemma OutputLine(re: string, line: string, rest: string)
    requires '\n' !in line
    ensures Output(re, line) == Matches(re, line) == ""
    ensures Matches(re, line + "\n" + rest) == (if Occurs(re, line) then line + "\n" else "") + Matches(re, rest)
    ensures Output(re, line + "\n" + rest) ==
      if |line| > 1022 || '\0' in line then "" else (if Occurs(re, line) then line + "\n" else "") + Output(re, rest)
  {
    hide Occurs;
    var s := line + "\n" + rest;
    assert Newline(line) == |line|;
    assert s[|line|] == '\n' && forall k :: 0 <= k < |line| ==> s[k] == line[k];
    assert Newline(s) == |line|;
    assert s[..|line|] == line && s[..|line| + 1] == line + "\n" && s[|line| + 1..] == rest;
  }

  // ----- When grep prints every matching line -----

  /** s[a..b] is a line, ended by the newline at b. */
  ghost predicate IsLine(s: string, a: int, b: int) {
    0 <= a <= b < |s| && s[b] == '\n' && (a == 0 || s[a - 1] == '\n') && '\n' !in s[a..b]
  }

  /** No matching line comes at or after a line that does not fit. */
  ghost predicate MatchesFit(re: string, s: string) {
    forall a, b, c, d :: IsLine(s, a, b) && IsLine(s, c, d) && a <= c && Occurs(re, s[c..d]) ==> Fits(s[a..b])
  }

  ghost predicate AllFit(s: string) {
    forall a, b :: IsLine(s, a, b) ==> Fits(s[a..b])
  }

  lemma SameLine(s: string, n: nat, a: nat, b: nat)
    requires n <= |s| && a <= b <= |s| - n
    ensures s[n..][a..b] == s[n + a..n + b]
  {
  }

  lemma Cancel(a: string, b: string, c: string)
    ensures a + b == a + c <==> b == c
  {
    if a + b == a + c {
      assert (a + b)[|a|..] == b && (a + c)[|a|..] == c;
    }
  }

  lemma LineStarts(s: string, a: int, b: int)
    requires IsLine(s, a, b)
    ensures Newline(s) < |s| && if a == 0 then b == Newline(s) else Newline(s) < a
  {
  }

  /** The lines behind a newline are those of the rest. */
  lemma LineOfRest(s: string, n: nat, a: int, b: int)
    requires 0 < n <= |s| && s[n - 1] == '\n' && a >= n
    ensures IsLine(s, a, b) <==> IsLine(s[n..], a - n, b - n)
    ensures IsLine(s, a, b) ==> s[n..][a - n..b - n] == s[a..b]
  {
    if a <= b < |s| {
      SameLine(s, n, a - n, b - n);
      assert s[n..][b - n] == s[b] && (a > n ==> s[n..][a - n - 1] == s[a - 1]);
    }
  }

  lemma FirstLine(s: string)
    requires Newline(s) < |s|
    ensures s[Newline(s)] == '\n'
    ensures IsLine(s, 0, Newline(s)) && s[0..Newline(s)] == s[..Newline(s)]
    ensures forall b :: IsLine(s, 0, b) ==> b == Newline(s)
  {
    forall b | IsLine(s, 0, b)
      ensures b == Newline(s)
    {
      LineStarts(s, 0, b);
    }
  }

  lemma {:induction false} MatchesNone(re: string, s: string)
    ensures Matches(re, s) == "" <==> forall a, b :: IsLine(s, a, b) ==> !Occurs(re, s[a..b])
    decreases |s|
  {
    hide Occurs, Newline;
    if Newline(s) < |s| {
      var n := Newline(s) + 1;
      FirstLine(s);
      MatchesNone(re, s[n..]);
      if Occurs(re, s[..n - 1]) {
        assert Occurs(re, s[0..n - 1]);
      } else if Matches(re, s[n..]) == "" {
        forall a, b | IsLine(s, a, b)
          ensures !Occurs(re, s[a..b])
        {
          if a != 0 {
            LineStarts(s, a, b);
            LineOfRest(s, n, a, b);
          }
        }
      } else {
        var a, b :| IsLine(s[n..], a, b) && Occurs(re, s[n..][a..b]);
        LineOfRest(s, n, n + a, n + b);
      }
    }
  }

  lemma FitsInRest(re: string, s: string, n: nat)
    requires 0 < n <= |s| && s[n - 1] == '\n' && MatchesFit(re, s)
    ensures MatchesFit(re, s[n..])
  {
    hide Occurs, Fits;
    forall a, b, c, d | IsLine(s[n..], a, b) && IsLine(s[n..], c, d) && a <= c && Occurs(re, s[n..][c..d])
      ensures Fits(s[n..][a..b])
    {
      LineOfRest(s, n, n + a, n + b);
      LineOfRest(s, n, n + c, n + d);
      hide IsLine;
    }
  }

  lemma FitsFromRest(re: string, s: string, n: nat)
    requires 0 < n <= |s| && n == Newline(s) + 1 && s[n - 1] == '\n' && MatchesFit(re, s[n..]) && Fits(s[..n - 1])
    ensures MatchesFit(re, s)
  {
    hide Occurs, Newline, Fits;
    forall a, b, c, d | IsLine(s, a, b) && IsLine(s, c, d) && a <= c && Occurs(re, s[c..d])
      ensures Fits(s[a..b])
    {
      LineStarts(s, a, b);
      LineStarts(s, c, d);
      if a == 0 {
        assert s[a..b] == s[..n - 1];
      } else {
        LineOfRest(s, n, a, b);
        LineOfRest(s, n, c, d);
        hide IsLine;
      }
    }
  }

  /** For one pattern, grep prints every matching line exactly when no matching line comes at or after one that does
      not fit. */
  lemma {:induction false} CompleteIff(re: string, s: string)
    ensures Output(re, s) == Matches(re, s) <==> MatchesFit(re, s)
    decreases |s|
  {
    hide Occurs, Newline, Fits;
    if Newline(s) == |s| {
      forall a, b | IsLine(s, a, b)
        ensures false
      {
        LineStarts(s, a, b);
      }
    } else {
      var n := Newline(s) + 1;
      FirstLine(s);
      if Fits(s[..n - 1]) {
        if MatchesFit(re, s) {
          FitsInRest(re, s, n);
        }
        if MatchesFit(re, s[n..]) {
          FitsFromRest(re, s, n);
        }
        CompleteIff(re, s[n..]);
        Cancel(if Occurs(re, s[..n - 1]) then s[..n] else "", Output(re, s[n..]), Matches(re, s[n..]));
      } else {
        MatchesNone(re, s);
        if c, d :| IsLine(s, c, d) && Occurs(re, s[c..d]) {
          assert !Fits(s[0..n - 1]);
        }
      }
    }
  }

  /** The empty pattern occurs in every line. */
  lemma EmptyOccurs(text: string)
    ensures Occurs("", text)
  {
    EmptyBegins(Parse(""), text[0..]);
  }

  /** For all patterns, grep prints every matching line exactly when every newline-ended line has fewer than 1023
      characters and no NUL. */
  lemma CompleteForAll(s: string)
    ensures (forall re :: Output(re, s) == Matches(re, s)) <==> AllFit(s)
  {
    hide Occurs, Fits, Output, Matches;
    forall re
      ensures Output(re, s) == Matches(re, s) <==> MatchesFit(re, s)
    {
      CompleteIff(re, s);
    }
    if !AllFit(s) {
      var a, b :| IsLine(s, a, b) && !Fits(s[a..b]);
      EmptyOccurs(s[a..b]);
      assert !MatchesFit("", s);
      CompleteIff("", s);
    }
  }

  /** A line of 1023 letters is not printed, although it matches. */
  lemma LongLineLost(s: string)
    requires |s| == BUFSIZE && (forall k :: 0 <= k < BUFSIZE - 1 ==> s[k] == 'a') && s[BUFSIZE - 1] == '\n'
    ensures Output("", s) == "" && Matches("", s) == s
  {
    NewlineAt(s, BUFSIZE - 1);
    EmptyOccurs(s[..BUFSIZE - 1]);
    hide Occurs;
    assert s[BUFSIZE..] == "";
  }

  // ----- grep itself -----

  lemma NewlineAt(s: string, q: nat)
    requires q < |s| && s[q] == '\n' && forall k :: 0 <= k < q ==> s[k] != '\n'
    ensures Newline(s) == q
  {
  }

  /** How much the k-th read returns: what the file system chooses, at least one byte if there is room and input. */
  function ReadSize(split: seq<nat>, k: nat, room: nat, left: nat): (n: nat)
    ensures n <= room && n <= left && (n == 0 <==> room == 0 || left == 0)
  {
    var most := if room < left then room else left;
    var want := if k < |split| && split[k] > 0 then split[k] else 1;
    if want < most then want else most
  }

  /** No newline, or a NUL in front of the first one. */
  ghost predicate Open(w: string) {
    forall k :: 0 <= k < |w| && w[k] == '\n' ==> '\0' in w[..k]
  }

  /** strchr for a newline in the NUL-terminated string at p. */
  method StrChr(buf: array<char>, p: nat, m: nat) returns (found: bool, q: nat)
    requires p <= m < buf.Length && buf[m] == '\0'
    ensures p <= q <= m && forall k :: p <= k < q ==> buf[k] != '\n' && buf[k] != '\0'
    ensures if found then q < m && buf[q] == '\n' else buf[q] == '\0'
  {
    q := p;
    while buf[q] != '\0' && buf[q] != '\n'
      invariant p <= q <= m && forall k :: p <= k < q ==> buf[k] != '\n' && buf[k] != '\0'
      decreases m - q
    {
      q := q + 1;
    }
    found := buf[q] == '\n';
  }

  /** grep: the output does not depend on how the reads split the input. */
  method Filter(re: string, input: string, split: seq<nat>) returns (out: string)
    ensures out == Output(re, input)
  {
    hide Output, Newline, Open;
    var buf := new char[BUFSIZE];
    var m: nat, pos: nat, k: nat := 0, 0, 0;
    out := "";
    assert input[0..] == input;
    NothingOpen();
    assert buf[..0] == "" && input[0..0] == "";
    while true
      invariant m <= BUFSIZE - 1 && m <= pos <= |input| && buf.Length == BUFSIZE
      invariant buf[..m] == input[pos - m..pos] && Open(input[pos - m..pos])
      invariant out + Output(re, input[pos - m..]) == Output(re, input)
      decreases |input| - pos
    {
      var n := ReadSize(split, k, BUFSIZE - m - 1, |input| - pos);
      if n == 0 {
        Leftover(re, input[pos - m..], m, input, pos);
        return;
      }
      out, m := Lines(re, input, buf, m, pos, n, out);
      pos, k := pos + n, k + 1;
    }
  }

  lemma NothingOpen()
    ensures Open("")
  {
  }

  lemma Leftover(re: string, s: string, m: nat, input: string, pos: nat)
    requires m <= pos <= |input| && s == input[pos - m..] && Open(input[pos - m..pos])
    requires m >= BUFSIZE - 1 || pos == |input|
    ensures Output(re, s) == ""
  {
    var w, q := input[pos - m..pos], Newline(s);
    assert forall k :: 0 <= k < m ==> s[k] == w[k];
    if q < m {
      assert s[..q] == w[..q];
    }
  }

  /** The body of grep's loop: n more bytes are read behind the m in the buffer, the complete lines are handled,
      and the rest is moved to the front. */
  method Lines(re: string, input: string, buf: array<char>, m0: nat, pos: nat, n: nat, out0: string) returns (out: string, m: nat)
    requires buf.Length == BUFSIZE && 0 < n && m0 + n <= BUFSIZE - 1 && m0 <= pos && pos + n <= |input|
    requires buf[..m0] == input[pos - m0..pos]
    modifies buf
    ensures m <= BUFSIZE - 1 && m <= pos + n && buf[..m] == input[pos + n - m..pos + n] && Open(input[pos + n - m..pos + n])
    ensures out + Output(re, input[pos + n - m..]) == out0 + Output(re, input[pos - m0..])
  {
    hide Output, Newline, Occurs, Open;
    Fill(buf, m0, input[pos..pos + n]);
    m := m0 + n;
    ghost var start := pos - m0;
    assert input[start..pos] + input[pos..pos + n] == input[start..pos + n];
    var p;
    out, p := Split(re, input[start..pos + n], input[pos + n..], buf, m, out0);
    assert input[start..pos + n] + input[pos + n..] == input[start..];
    assert input[start..pos + n][p..] + input[pos + n..] == input[start + p..];
    m := m - p;
    Shift(buf, p, m);
    assert input[start..pos + n][p..] == input[start + p..pos + n];
  }

  /** read, and the NUL after what was read. */
  method Fill(buf: array<char>, m: nat, data: string)
    requires m + |data| < buf.Length
    modifies buf
    ensures buf[..m + |data|] == old(buf[..m]) + data && buf[m + |data|] == '\0'
  {
    forall i | 0 <= i < |data| {
      buf[m + i] := data[i];
    }
    buf[m + |data|] := '\0';
  }

  /** Handles the complete lines of the buffer's contents w; `after` is the input not read yet. */
  method Split(re: string, ghost w: string, ghost after: string, buf: array<char>, m: nat, out0: string) returns (out: string, p: nat)
    requires buf.Length == BUFSIZE && m <= BUFSIZE - 1 && buf[..m] == w && buf[m] == '\0'
    modifies buf
    ensures p <= m && buf[p..m] == w[p..] && Open(w[p..])
    ensures out + Output(re, w[p..] + after) == out0 + Output(re, w + after)
  {
    hide Output, Occurs, Newline, Open;
    ghost var goal := out0 + Output(re, w + after);
    out, p := out0, 0;
    assert w[0..] == w;
    while true
      invariant 0 <= p <= m && buf[m] == '\0'
      invariant forall k :: p <= k < m ==> buf[k] == w[k]
      invariant out + Output(re, w[p..] + after) == goal
      decreases m - p
    {
      var found, q := StrChr(buf, p, m);
      if !found {
        RestOpen(w, p, q);
        break;
      }
      LineAt(re, w, after, p, q);
      buf[q] := '\0';
      assert buf[p..q] == w[p..q];
      var matches := Match(re, buf[p..q]);
      if matches {
        buf[q] := '\n';
        assert buf[p..q + 1] == w[p..q + 1];
        Associates(out, w[p..q + 1], Output(re, w[q + 1..] + after));
        out := out + buf[p..q + 1];
      }
      p := q + 1;
    }
  }

  lemma RestOpen(w: string, p: nat, q: nat)
    requires p <= q <= |w| && (forall k :: p <= k < q ==> w[k] != '\n') && (q < |w| ==> w[q] == '\0')
    ensures Open(w[p..])
  {
    forall k | 0 <= k < |w[p..]| && w[p..][k] == '\n'
      ensures '\0' in w[p..][..k]
    {
      assert w[p..][..k][q - p] == '\0';
    }
  }

  lemma Associates(a: string, b: string, c: string)
    ensures a + b + c == a + (b + c) && "" + c == c
  {
  }

  /** memmove of m bytes from p to the front. */
  method Shift(buf: array<char>, p: nat, m: nat)
    requires p + m <= buf.Length
    modifies buf
    ensures buf[..m] == old(buf[p..p + m])
  {
    var i := 0;
    while i < m
      invariant 0 <= i <= m
      invariant forall k :: 0 <= k < i ==> buf[k] == old(buf[p + k])
      invariant forall k :: p + i <= k < p + m ==> buf[k] == old(buf[k])
    {
      buf[i] := buf[p + i];
      i := i + 1;
    }
  }

  /** The next line of the input, when it ends inside the buffer. */
  lemma LineAt(re: string, w: string, after: string, p: nat, q: nat)
    requires p <= q < |w| <= BUFSIZE - 1 && w[q] == '\n' && forall k :: p <= k < q ==> w[k] != '\n' && w[k] != '\0'
    ensures Output(re, w[p..] + after) == (if Occurs(re, w[p..q]) then w[p..q + 1] else "") + Output(re, w[q + 1..] + after)
  {
    hide Occurs, Newline;
    var s := w[p..] + after;
    NewlineAt(s, q - p);
    assert s[..q - p] == w[p..q];
    assert s[..q - p + 1] == w[p..q + 1];
    assert s[q - p + 1..] == w[q + 1..] + after;
  }
}
