// Python string operations used by the normalizer and the preference validators: strip, split, join
// and the one regular expression substitution.
module Text {

  // The characters str.strip and str.split treat as white space.
  predicate IsSpace(c: char) {
    var n := c as int;
    || 9 <= n <= 13 || 28 <= n <= 32 || n == 0x85 || n == 0xA0 || n == 0x1680
    || 0x2000 <= n <= 0x200A || n == 0x2028 || n == 0x2029 || n == 0x202F || n == 0x205F || n == 0x3000
  }

  function StripLeft(s: string): string {
    if s != [] && IsSpace(s[0]) then StripLeft(s[1..]) else s
  }

  function StripRight(s: string): string {
    if s != [] && IsSpace(s[|s| - 1]) then StripRight(s[..|s| - 1]) else s
  }

  function Strip(s: string): string {
    StripRight(StripLeft(s))
  }

  ghost predicate Stripped(s: string) {
    s == [] || (!IsSpace(s[0]) && !IsSpace(s[|s| - 1]))
  }

  lemma {:induction false} StripLeftShape(s: string)
    ensures StripLeft(s) == [] || !IsSpace(StripLeft(s)[0])
  {
    if s != [] && IsSpace(s[0]) { StripLeftShape(s[1..]); }
  }

  lemma {:induction false} StripRightShape(s: string)
    requires s == [] || !IsSpace(s[0])
    ensures Stripped(StripRight(s))
  {
    if s != [] && IsSpace(s[|s| - 1]) { StripRightShape(s[..|s| - 1]); }
  }

  // Stripping yields a string without outer space, and only such strings are left alone.
  lemma StripIsProjection(s: string)
    ensures Stripped(Strip(s))
    ensures Strip(s) == s <==> Stripped(s)
    ensures Strip(Strip(s)) == Strip(s)
  {
    StripLeftShape(s);
    StripRightShape(StripLeft(s));
  }

  ghost predicate Blank(s: string) {
    forall i :: 0 <= i < |s| ==> IsSpace(s[i])
  }

  // Stripping takes white space away at the ends, and nothing else.
  lemma StripTakesSpace(s: string) returns (before: string, after: string)
    ensures s == before + Strip(s) + after && Blank(before) && Blank(after)
  {
    before := StripLeftTakesSpace(s);
    after := StripRightTakesSpace(StripLeft(s));
    assert s == before + (Strip(s) + after);
  }

  lemma {:induction false} StripLeftTakesSpace(s: string) returns (before: string)
    ensures s == before + StripLeft(s) && Blank(before)
  {
    before := "";
    if s != [] && IsSpace(s[0]) {
      var rest := StripLeftTakesSpace(s[1..]);
      before := [s[0]] + rest;
    }
  }

  lemma {:induction false} StripRightTakesSpace(s: string) returns (after: string)
    ensures s == StripRight(s) + after && Blank(after)
  {
    after := "";
    if s != [] && IsSpace(s[|s| - 1]) {
      var rest := StripRightTakesSpace(s[..|s| - 1]);
      after := rest + [s[|s| - 1]];
      assert s == s[..|s| - 1] + [s[|s| - 1]];
    }
  }

  // ---------------------------------------------------------------- words

  function Leading(s: string, p: char -> bool): (k: nat)
    ensures k <= |s|
    ensures forall i :: 0 <= i < k ==> p(s[i])
    ensures k < |s| ==> !p(s[k])
  {
    if s != [] && p(s[0]) then 1 + Leading(s[1..], p) else 0
  }

  // The maximal runs of characters that are not separators.
  function Words(s: string, sep: char -> bool): (ws: seq<string>)
    decreases |s|
  {
    if s == [] then []
    else if sep(s[0]) then Words(s[1..], sep)
    else
      var k := Leading(s, c => !sep(c));
      [s[..k]] + Words(s[k..], sep)
  }

  function Join(ws: seq<string>): string {
    if ws == [] then ""
    else if |ws| == 1 then ws[0]
    else ws[0] + " " + Join(ws[1..])
  }

  // The characters that are not separators, in order.
  function Without(s: string, sep: char -> bool): string {
    if s == [] then []
    else Without(s[..|s| - 1], sep) + (if sep(s[|s| - 1]) then [] else [s[|s| - 1]])
  }

  lemma {:induction false} WithoutAppend(a: string, b: string, sep: char -> bool)
    ensures Without(a + b, sep) == Without(a, sep) + Without(b, sep)
  {
    if b == [] {
      assert a + b == a;
    } else {
      var n := |b| - 1;
      WithoutAppend(a, b[..n], sep);
      assert (a + b)[..|a + b| - 1] == a + b[..n];
      assert (a + b)[|a + b| - 1] == b[n];
    }
  }

  // Splitting into words and joining them loses no character but separators, and reorders none.
  lemma {:induction false} WordsKeep(s: string, sep: char -> bool)
    requires sep(' ')
    ensures Without(Join(Words(s, sep)), sep) == Without(s, sep)
    decreases |s|
  {
    if s != [] {
      if sep(s[0]) {
        WordsKeep(s[1..], sep);
        assert s == [s[0]] + s[1..];
        WithoutAppend([s[0]], s[1..], sep);
      } else {
        var k := Leading(s, c => !sep(c));
        WordsKeep(s[k..], sep);
        assert s == s[..k] + s[k..];
        WithoutAppend(s[..k], s[k..], sep);
        JoinFirst(s[..k], Words(s[k..], sep), sep);
      }
    }
  }

  lemma JoinFirst(w: string, ws: seq<string>, sep: char -> bool)
    requires sep(' ')
    ensures Without(Join([w] + ws), sep) == Without(w, sep) + Without(Join(ws), sep)
  {
    if ws != [] {
      assert ([w] + ws)[1..] == ws;
      WithoutAppend(w + " ", Join(ws), sep);
      WithoutAppend(w, " ", sep);
    } else {
      assert [w] + ws == [w];
    }
  }

  ghost predicate IsWord(w: string, sep: char -> bool) {
    w != [] && forall i :: 0 <= i < |w| ==> !sep(w[i])
  }

  ghost predicate AreWords(ws: seq<string>, sep: char -> bool) {
    forall i :: 0 <= i < |ws| ==> IsWord(ws[i], sep)
  }

  lemma {:induction false} WordsAreWords(s: string, sep: char -> bool)
    ensures AreWords(Words(s, sep), sep)
    decreases |s|
  {
    if s == [] {
    } else if sep(s[0]) {
      WordsAreWords(s[1..], sep);
    } else {
      WordsAreWords(s[Leading(s, c => !sep(c))..], sep);
    }
  }

  lemma LeadingWord(w: string, rest: string, sep: char -> bool)
    requires IsWord(w, sep) && (rest == [] || sep(rest[0]))
    ensures Leading(w + rest, c => !sep(c)) == |w|
  {
    var k := Leading(w + rest, c => !sep(c));
    assert forall i :: 0 <= i < |w| ==> (w + rest)[i] == w[i];
    assert |w| < |w + rest| ==> (w + rest)[|w|] == rest[0];
  }

  // Splitting the joined words gives the words back, so joining is injective on word lists.
  lemma {:induction false} WordsOfJoin(ws: seq<string>, sep: char -> bool)
    requires AreWords(ws, sep) && sep(' ')
    ensures Words(Join(ws), sep) == ws
  {
    if ws == [] {
    } else if |ws| == 1 {
      assert ws[0] + [] == ws[0];
      LeadingWord(ws[0], [], sep);
      assert ws == [ws[0]];
    } else {
      var rest := " " + Join(ws[1..]);
      var s := ws[0] + rest;
      assert Join(ws) == s;
      LeadingWord(ws[0], rest, sep);
      assert !sep(s[0]) by { assert s[0] == ws[0][0]; }
      assert s[..|ws[0]|] == ws[0] && s[|ws[0]|..] == rest;
      assert rest[1..] == Join(ws[1..]);
      WordsOfJoin(ws[1..], sep);
    }
  }

  // re.sub("sep+", " ", s)
  function Squeeze(s: string, sep: char -> bool): string
    decreases |s|
  {
    if s == [] then ""
    else if sep(s[0]) then " " + Squeeze(s[Leading(s, sep)..], sep)
    else [s[0]] + Squeeze(s[1..], sep)
  }

  // ---------------------------------------------------------------- squeezing, then stripping

  lemma {:induction false} SkipSeparators(s: string, sep: char -> bool, k: nat)
    requires k <= |s| && forall i :: 0 <= i < k ==> sep(s[i])
    ensures Words(s[k..], sep) == Words(s, sep)
  {
    if k > 0 {
      SkipSeparators(s[1..], sep, k - 1);
      assert s[1..][k - 1..] == s[k..];
    } else {
      assert s[0..] == s;
    }
  }

  lemma {:induction false} KeepWord(s: string, sep: char -> bool, k: nat)
    requires k <= |s| && forall i :: 0 <= i < k ==> !sep(s[i])
    ensures Squeeze(s, sep) == s[..k] + Squeeze(s[k..], sep)
  {
    if k > 0 {
      KeepWord(s[1..], sep, k - 1);
      assert s[1..][k - 1..] == s[k..];
      assert s[..k] == [s[0]] + s[1..][..k - 1];
    } else {
      assert s[0..] == s;
    }
  }

  lemma {:induction false} NoWords(s: string, sep: char -> bool)
    requires Words(s, sep) == []
    ensures forall i :: 0 <= i < |s| ==> sep(s[i])
    decreases |s|
  {
    if s != [] && sep(s[0]) { NoWords(s[1..], sep); }
  }

  function Before(s: string, sep: char -> bool): string {
    if s != [] && sep(s[0]) then " " else ""
  }

  function After(s: string, ws: seq<string>, sep: char -> bool): string {
    if s != [] && ws != [] && sep(s[|s| - 1]) then " " else ""
  }

  function Framed(s: string, ws: seq<string>, sep: char -> bool): string {
    Before(s, sep) + (Join(ws) + After(s, ws, sep))
  }

  lemma FramedSeparators(s: string, ws: seq<string>, sep: char -> bool, k: nat)
    requires 0 < k <= |s| && sep(s[0])
    requires if k < |s| then !sep(s[k]) else ws == []
    ensures Framed(s, ws, sep) == " " + Framed(s[k..], ws, sep)
  {
    var rest := s[k..];
    assert After(s, ws, sep) == After(rest, ws, sep);
    assert Before(rest, sep) == "" && Before(s, sep) == " ";
    assert Framed(rest, ws, sep) == Join(ws) + After(rest, ws, sep);
  }

  lemma FramedWord(s: string, ws: seq<string>, sep: char -> bool, k: nat)
    requires 0 < k <= |s| && !sep(s[0]) && !sep(s[k - 1])
    requires if k < |s| then sep(s[k]) && (ws == [] ==> sep(s[|s| - 1])) else ws == []
    ensures Framed(s, [s[..k]] + ws, sep) == s[..k] + Framed(s[k..], ws, sep)
  {
    var w := s[..k];
    var rest := s[k..];
    var all := [w] + ws;
    assert Framed(s, all, sep) == Join(all) + After(s, all, sep);
    if ws == [] {
      assert Join(all) == w;
      assert After(s, all, sep) == Before(rest, sep);
      assert Framed(rest, ws, sep) == Before(rest, sep);
    } else {
      assert all[1..] == ws;
      assert Join(all) == w + " " + Join(ws);
      assert After(s, all, sep) == After(rest, ws, sep);
      assert Before(rest, sep) == " ";
      assert w + " " + Join(ws) + After(rest, ws, sep) == w + (" " + (Join(ws) + After(rest, ws, sep)));
    }
  }

  lemma {:induction false} SqueezeShape(s: string, sep: char -> bool)
    ensures Squeeze(s, sep) == Framed(s, Words(s, sep), sep)
    decreases |s|
  {
    if s == [] {
    } else if sep(s[0]) {
      var k := Leading(s, sep);
      SqueezeShape(s[k..], sep);
      SkipSeparators(s, sep, k);
      FramedSeparators(s, Words(s, sep), sep, k);
    } else {
      var k := Leading(s, c => !sep(c));
      KeepWord(s, sep, k);
      SqueezeShape(s[k..], sep);
      if Words(s[k..], sep) == [] { NoWords(s[k..], sep); }
      FramedWord(s, Words(s[k..], sep), sep, k);
    }
  }

  lemma {:induction false} JoinEnds(ws: seq<string>, sep: char -> bool)
    requires AreWords(ws, sep) && ws != []
    ensures Join(ws) != [] && !sep(Join(ws)[0]) && !sep(Join(ws)[|Join(ws)| - 1])
  {
    if |ws| > 1 { JoinEnds(ws[1..], sep); }
  }

  lemma StripPadded(before: string, s: string, after: string)
    requires Stripped(s) && before in {"", " "} && after in {"", " "}
    requires s == [] ==> after == ""
    ensures Strip(before + (s + after)) == s
  {
    var t := s + after;
    StripIsProjection(s);
    if before == " " { assert (before + t)[1..] == t; } else { assert before + t == t; }
    if s != [] {
      assert StripLeft(t) == t;
      if after == " " { assert t[..|t| - 1] == s; } else { assert t == s; }
    }
  }

  // Squeezing every run of separators to one space and stripping is joining the words.
  lemma StripSqueeze(s: string, sep: char -> bool)
    requires forall c :: IsSpace(c) ==> sep(c)
    ensures Strip(Squeeze(s, sep)) == Join(Words(s, sep))
  {
    SqueezeShape(s, sep);
    WordsAreWords(s, sep);
    var j := Join(Words(s, sep));
    if Words(s, sep) != [] { JoinEnds(Words(s, sep), sep); }
    assert Stripped(j);
    StripPadded(Before(s, sep), j, After(s, Words(s, sep), sep));
  }
}
