/** What the scanner of OutputParser takes for a complete object: text between braces that balance outside
    of string literals.  Every object of section 4 of RFC 8259 is such a text. */
module ObjectGrammar {
  import opened Sequences
  import opened Text
  import opened OutputParser

  /** A character of a string literal: as it is, or behind a backslash. */
  datatype Unit = Bare(c: char) | Escaped(c: char)

  /** Numbers, names, brackets, commas, colons and white space are plain. */
  datatype Item = Plain(c: char) | Quoted(units: seq<Unit>) | Braced(items: seq<Item>)

  predicate UnitOk(u: Unit) { u.Bare? ==> u.c != '"' && u.c != '\\' }

  predicate WellFormed(item: Item)
    decreases item
  {
    match item
    case Plain(c) => c != '"' && c != '{' && c != '}'
    case Quoted(units) => forall i :: 0 <= i < |units| ==> UnitOk(units[i])
    case Braced(items) => forall i :: 0 <= i < |items| ==> WellFormed(items[i])
  }

  function RenderUnit(u: Unit): string {
    match u case Bare(c) => [c] case Escaped(c) => ['\\', c]
  }

  function RenderUnits(units: seq<Unit>): string
    decreases |units|
  {
    if units == [] then [] else RenderUnits(units[..|units| - 1]) + RenderUnit(units[|units| - 1])
  }

  function Render(item: Item): string
    decreases item, 0
  {
    match item
    case Plain(c) => [c]
    case Quoted(units) => ['"'] + RenderUnits(units) + ['"']
    case Braced(items) => ['{'] + RenderAll(items) + ['}']
  }

  function RenderAll(items: seq<Item>): string
    decreases items, |items|
  {
    if items == [] then [] else RenderAll(items[..|items| - 1]) + Render(items[|items| - 1])
  }

  // ---------- A rendered object is found ----------

  /** Reading `text` never takes the depth below `d`. */
  ghost predicate StaysAbove(s: Scanner, text: string, d: nat) {
    forall k :: 0 <= k <= |text| ==> After(s, text[..k]).depth >= d
  }

  /** Reading `text` changes nothing in the end and never leaves the braces around it. */
  ghost predicate IsNeutral(s: Scanner, text: string) { After(s, text) == s && StaysAbove(s, text, s.depth) }

  lemma NeutralJoined(s: Scanner, a: string, b: string)
    requires IsNeutral(s, a) && IsNeutral(s, b)
    ensures IsNeutral(s, a + b)
  {
    AfterJoined(s, a, b);
    forall k | 0 <= k <= |a + b| ensures After(s, (a + b)[..k]).depth >= s.depth {
      if k <= |a| {
        assert (a + b)[..k] == a[..k];
      } else {
        assert (a + b)[..k] == a + b[..k - |a|];
        AfterJoined(s, a, b[..k - |a|]);
      }
    }
  }

  /** The same with a first and a last character that open and close something. */
  lemma NeutralInside(s: Scanner, first: char, text: string, last: char)
    requires IsNeutral(Scan(s, first), text) && Scan(s, first).depth >= s.depth && Scan(Scan(s, first), last) == s
    ensures IsNeutral(s, [first] + text + [last])
  {
    var whole := [first] + text + [last];
    forall k | 0 <= k <= |whole|
      ensures After(s, whole[..k]) ==
        if k == 0 then s else if k == |whole| then s else After(Scan(s, first), text[..k - 1])
    {
      if k == |whole| {
        assert whole[..k] == [first] + text + [last];
        AfterJoined(s, [first] + text, [last]);
        AfterJoined(s, [first], text);
        AfterOne(s, first);
        AfterOne(Scan(s, first), last);
      } else if k > 0 {
        assert whole[..k] == [first] + text[..k - 1];
        AfterJoined(s, [first], text[..k - 1]);
        AfterOne(s, first);
      }
    }
    assert whole[..|whole|] == whole;
  }

  lemma AfterOne(s: Scanner, c: char)
    ensures After(s, [c]) == Scan(s, c)
  {
    assert [c][..0] == [];
  }

  lemma UnitIsNeutral(s: Scanner, u: Unit)
    requires s.inString && !s.escaped && UnitOk(u)
    ensures IsNeutral(s, RenderUnit(u))
  {
    var text := RenderUnit(u);
    AfterOne(s, text[0]);
    assert text[..0] == [] && text[..1] == [text[0]];
    if u.Escaped? {
      assert text == [text[0]] + [text[1]];
      AfterJoined(s, [text[0]], [text[1]]);
      AfterOne(Scan(s, text[0]), text[1]);
      assert text[..2] == text;
    }
  }

  lemma {:induction false} UnitsAreNeutral(s: Scanner, units: seq<Unit>)
    requires s.inString && !s.escaped && forall i :: 0 <= i < |units| ==> UnitOk(units[i])
    ensures IsNeutral(s, RenderUnits(units))
    decreases |units|
  {
    if units != [] {
      var n := |units| - 1;
      UnitsAreNeutral(s, units[..n]);
      UnitIsNeutral(s, units[n]);
      NeutralJoined(s, RenderUnits(units[..n]), RenderUnit(units[n]));
    }
  }

  lemma {:induction false} ItemIsNeutral(s: Scanner, item: Item)
    requires !s.inString && !s.escaped && WellFormed(item)
    ensures IsNeutral(s, Render(item))
    decreases item, 0
  {
    hide IsNeutral;
    match item
    case Plain(c) =>
      PlainIsNeutral(s, c);
    case Quoted(units) =>
      UnitsAreNeutral(Scan(s, '"'), units);
      NeutralInside(s, '"', RenderUnits(units), '"');
    case Braced(items) =>
      ItemsAreNeutral(Scan(s, '{'), items);
      NeutralInside(s, '{', RenderAll(items), '}');
  }

  lemma PlainIsNeutral(s: Scanner, c: char)
    requires !s.inString && WellFormed(Plain(c))
    ensures IsNeutral(s, [c])
  {
    AfterOne(s, c);
    assert [c][..0] == [] && [c][..1] == [c];
  }

  lemma {:induction false} ItemsAreNeutral(s: Scanner, items: seq<Item>)
    requires !s.inString && !s.escaped && forall i :: 0 <= i < |items| ==> WellFormed(items[i])
    ensures IsNeutral(s, RenderAll(items))
    decreases items, |items|
  {
    hide WellFormed;
    if items != [] {
      var n := |items| - 1;
      ItemsAreNeutral(s, items[..n]);
      ItemIsNeutral(s, items[n]);
      NeutralJoined(s, RenderAll(items[..n]), Render(items[n]));
    }
  }

  /** An object is found whole, whatever comes before its brace and whatever follows. */
  lemma ObjectIsFound(text: string, items: seq<Item>, e: nat)
    requires WellFormed(Braced(items)) && e <= |text| && FindChar(text, '{') <= e
    requires text[FindChar(text, '{')..e] == Render(Braced(items))
    ensures ObjectEnd(text) == Some(e)
  {
    hide WellFormed, IsNeutral, Closes, RenderAll;
    var start := FindChar(text, '{');
    InnerIsNeutral(items);
    assert |text[start..e]| >= 2;
    forall k: nat | k < e ensures !Closes(text, start, k) {
      if start < k {
        InnerDoesNotClose(text, items, start, k, e);
      } else {
        NotBefore(text, start, k);
      }
    }
    LastBraceCloses(text, items, start, e);
    ObjectEndIs(text, e);
  }

  lemma NotBefore(text: string, start: nat, k: nat)
    requires k <= start
    ensures !Closes(text, start, k)
  {
  }

  lemma LastBraceCloses(text: string, items: seq<Item>, start: nat, e: nat)
    requires e <= |text| && start < e && text[start..e] == ['{'] + RenderAll(items) + ['}']
    requires IsNeutral(Scanner(1, false, false), RenderAll(items))
    ensures Closes(text, start, e)
  {
    hide After;
    var front := ['{'] + RenderAll(items);
    LastIs(text, start, e, front);
    AfterJoined(OUTSIDE, ['{'], RenderAll(items));
    AfterOne(OUTSIDE, '{');
  }

  lemma LastIs(text: string, start: nat, e: nat, front: string)
    requires e <= |text| && start < e && text[start..e] == front + ['}']
    ensures text[start..e - 1] == front && text[e - 1] == '}'
  {
    assert text[start..e - 1] == text[start..e][..|front|];
    assert text[e - 1] == text[start..e][|front|];
  }

  lemma InnerIsNeutral(items: seq<Item>)
    requires WellFormed(Braced(items))
    ensures IsNeutral(Scanner(1, false, false), RenderAll(items))
  {
    ItemsAreNeutral(Scanner(1, false, false), items);
  }

  lemma InnerDoesNotClose(text: string, items: seq<Item>, start: nat, k: nat, e: nat)
    requires e <= |text| && start < k < e && text[start..e] == ['{'] + RenderAll(items) + ['}']
    requires IsNeutral(Scanner(1, false, false), RenderAll(items))
    ensures !Closes(text, start, k)
  {
    assert text[start] == text[start..e][0] == '{';
    if k > start + 1 {
      var n := k - start - 1;
      assert text[start..k] == text[start..e][..n + 1] == ['{'] + RenderAll(items)[..n];
      hide RenderAll, Render;
      AfterBrace(RenderAll(items), n);
      AfterOneMore(text, start, k - 1);
    }
  }

  /** Inside the braces the scanner stays inside. */
  lemma AfterBrace(inner: string, n: nat)
    requires n <= |inner| && IsNeutral(Scanner(1, false, false), inner)
    ensures After(OUTSIDE, ['{'] + inner[..n]).depth >= 1
  {
    AfterJoined(OUTSIDE, ['{'], inner[..n]);
    AfterOne(OUTSIDE, '{');
  }

  // ---------- What is found is an object ----------

  /** Open braces, each with the items behind it. */
  function RenderOpen(open: seq<seq<Item>>): string
    decreases |open|
  {
    if open == [] then [] else RenderOpen(open[..|open| - 1]) + (['{'] + RenderAll(open[|open| - 1]))
  }

  function RenderTail(s: Scanner, units: seq<Unit>): string {
    if !s.inString then [] else ['"'] + RenderUnits(units) + (if s.escaped then ['\\'] else [])
  }

  ghost predicate ItemsOk(items: seq<Item>) { forall i :: 0 <= i < |items| ==> WellFormed(items[i]) }

  /** The scanner stands at `s` behind `text`, which consists of open braces and perhaps an open string. */
  ghost predicate Reads(text: string, s: Scanner, open: seq<seq<Item>>, units: seq<Unit>) {
    && |open| == s.depth && text == RenderOpen(open) + RenderTail(s, units)
    && (forall i :: 0 <= i < |open| ==> ItemsOk(open[i])) && (forall i :: 0 <= i < |units| ==> UnitOk(units[i]))
    && (s.escaped ==> s.inString) && (!s.inString ==> units == [])
  }

  /** The innermost brace gets one more item. */
  function Pushed(open: seq<seq<Item>>, item: Item): seq<seq<Item>>
    requires open != []
  {
    open[..|open| - 1] + [open[|open| - 1] + [item]]
  }

  lemma RenderPushed(open: seq<seq<Item>>, item: Item)
    requires open != []
    ensures RenderOpen(Pushed(open, item)) == RenderOpen(open) + Render(item)
  {
    var n := |open| - 1;
    var last := open[n];
    assert Pushed(open, item)[..n] == open[..n];
    assert (last + [item])[..|last|] == last;
    var outer := RenderOpen(open[..n]);
    assert ['{'] + (RenderAll(last) + Render(item)) == ['{'] + RenderAll(last) + Render(item);
    Associative(outer, ['{'] + RenderAll(last), Render(item));
  }

  lemma PushedOk(open: seq<seq<Item>>, item: Item)
    requires open != [] && WellFormed(item) && forall i :: 0 <= i < |open| ==> ItemsOk(open[i])
    ensures forall i :: 0 <= i < |open| ==> ItemsOk(Pushed(open, item)[i])
  {
    hide WellFormed;
  }

  lemma UnitPushed(units: seq<Unit>, u: Unit)
    ensures RenderUnits(units + [u]) == RenderUnits(units) + RenderUnit(u)
  {
    assert (units + [u])[..|units|] == units;
  }

  lemma ReadInString(text: string, c: char, s: Scanner, open: seq<seq<Item>>, units: seq<Unit>)
    returns (open': seq<seq<Item>>, units': seq<Unit>)
    requires Reads(text, s, open, units) && s.depth >= 1 && s.inString
    ensures Reads(text + [c], Scan(s, c), open', units')
  {
    hide RenderOpen, RenderUnits, WellFormed, ItemsOk;
    open', units' := open, units;
    var body := RenderUnits(units);
    if s.escaped {
      units' := units + [Escaped(c)];
      UnitPushed(units, Escaped(c));
      assert ['"'] + body + ['\\'] + [c] == ['"'] + (body + ['\\', c]) + [];
    } else if c == '\\' {
      assert ['"'] + body + [] + [c] == ['"'] + body + ['\\'];
    } else if c == '"' {
      open', units' := Pushed(open, Quoted(units)), [];
      QuotedOk(units);
      PushedOk(open, Quoted(units));
      RenderPushed(open, Quoted(units));
      assert ['"'] + body + [] + [c] == Render(Quoted(units));
      assert RenderOpen(open) + Render(Quoted(units)) + [] == RenderOpen(open) + Render(Quoted(units));
    } else {
      units' := units + [Bare(c)];
      UnitPushed(units, Bare(c));
      assert ['"'] + body + [] + [c] == ['"'] + (body + [c]) + [];
    }
    Associative(RenderOpen(open), RenderTail(s, units), [c]);
  }

  lemma QuotedOk(units: seq<Unit>)
    requires forall i :: 0 <= i < |units| ==> UnitOk(units[i])
    ensures WellFormed(Quoted(units))
  {
  }

  lemma ReadOutside(text: string, c: char, s: Scanner, open: seq<seq<Item>>)
    returns (open': seq<seq<Item>>)
    requires Reads(text, s, open, []) && s.depth >= 1 && !s.inString && (c == '}' ==> s.depth >= 2)
    ensures Reads(text + [c], Scan(s, c), open', [])
  {
    hide WellFormed, RenderAll;
    assert text == RenderOpen(open) by {
      assert RenderOpen(open) + [] == RenderOpen(open);
    }
    if c == '"' {
      open' := open;
      assert ['"'] + RenderUnits([]) + [] == ['"'];
    } else if c == '{' {
      open' := open + [[]];
      assert open'[..|open|] == open;
      NothingInside();
      assert RenderOpen(open') + [] == RenderOpen(open');
    } else if c == '}' {
      open' := CloseBrace(open);
      assert RenderOpen(open') + [] == RenderOpen(open');
    } else {
      open' := Pushed(open, Plain(c));
      PlainOk(c);
      PushedOk(open, Plain(c));
      RenderPushed(open, Plain(c));
      assert RenderOpen(open') + [] == RenderOpen(open');
    }
  }

  lemma NothingInside()
    ensures RenderAll([]) == [] && ['{'] + RenderAll([]) == ['{']
  {
  }

  lemma PlainOk(c: char)
    requires c != '"' && c != '{' && c != '}'
    ensures WellFormed(Plain(c))
  {
  }

  lemma BracedOk(items: seq<Item>)
    requires ItemsOk(items)
    ensures WellFormed(Braced(items))
  {
  }

  /** The innermost brace becomes an item of the next one. */
  lemma CloseBrace(open: seq<seq<Item>>) returns (open': seq<seq<Item>>)
    requires |open| >= 2 && forall i :: 0 <= i < |open| ==> ItemsOk(open[i])
    ensures |open'| == |open| - 1 && RenderOpen(open') == RenderOpen(open) + ['}']
    ensures forall i :: 0 <= i < |open'| ==> ItemsOk(open'[i])
  {
    hide WellFormed, ItemsOk, RenderAll;
    var n := |open| - 1;
    var outer, last := open[..n], open[n];
    open' := Pushed(outer, Braced(last));
    BracedOk(last);
    PushedOk(outer, Braced(last));
    RenderPushed(outer, Braced(last));
    assert RenderOpen(open) == RenderOpen(outer) + (['{'] + RenderAll(last));
    Associative(RenderOpen(outer), ['{'] + RenderAll(last), ['}']);
  }

  /** Up to where the object ends, the text consists of open braces. */
  lemma {:induction false} ReadUpTo(text: string, start: nat, k: nat)
    returns (open: seq<seq<Item>>, units: seq<Unit>)
    requires start < k <= |text| && text[start] == '{' && forall j: nat :: j <= k ==> !Closes(text, start, j)
    ensures After(OUTSIDE, text[start..k]).depth >= 1
    ensures Reads(text[start..k], After(OUTSIDE, text[start..k]), open, units)
    decreases k
  {
    hide RenderOpen, RenderTail, ItemsOk;
    if k == start + 1 {
      assert text[start..k] == ['{'];
      AfterOne(OUTSIDE, '{');
      open, units := [[]], [];
      OneBrace();
    } else {
      open, units := ReadUpTo(text, start, k - 1);
      var s, c := After(OUTSIDE, text[start..k - 1]), text[k - 1];
      AfterOneMore(text, start, k - 1);
      assert text[start..k - 1] + [c] == text[start..k];
      assert !Closes(text, start, k);
      if s.inString {
        open, units := ReadInString(text[start..k - 1], c, s, open, units);
      } else {
        open := ReadOutside(text[start..k - 1], c, s, open);
      }
    }
  }

  lemma OneBrace()
    ensures Reads(['{'], Scanner(1, false, false), [[]], [])
  {
    NothingInside();
    var open: seq<seq<Item>> := [[]];
    assert open[..0] == [];
    assert RenderOpen([]) + ['{'] == ['{'];
  }

  lemma FoundIsObject(text: string, e: nat)
    requires EndsAt(text, e)
    ensures exists items :: WellFormed(Braced(items)) && text[FindChar(text, '{')..e] == Render(Braced(items))
  {
    hide After, WellFormed, ItemsOk, RenderAll;
    var start := FindChar(text, '{');
    assert Closes(text, start, e);
    assert e - 1 > start;
    var open, units := ReadUpTo(text, start, e - 1);
    assert |open| == 1 && open[..0] == [];
    var items := open[0];
    BracedOk(items);
    assert text[start..e] == text[start..e - 1] + ['}'];
    assert RenderOpen([]) + (['{'] + RenderAll(items)) == ['{'] + RenderAll(items);
    assert text[start..e] == Render(Braced(items));
  }

  /** The scanner finds an end exactly where balanced text that begins with the first brace ends. */
  lemma FoundExactly(text: string, e: nat)
    ensures ObjectEnd(text) == Some(e) <==>
      FindChar(text, '{') <= e <= |text| &&
      exists items :: WellFormed(Braced(items)) && text[FindChar(text, '{')..e] == Render(Braced(items))
  {
    hide After, WellFormed, Render;
    if ObjectEnd(text) == Some(e) {
      FoundIsObject(text, e);
    }
    if FindChar(text, '{') <= e <= |text| {
      if items :| WellFormed(Braced(items)) && text[FindChar(text, '{')..e] == Render(Braced(items)) {
        ObjectIsFound(text, items, e);
      }
    }
  }
}
