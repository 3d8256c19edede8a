/** The splitting of the text of a PDF file into pages, by markers such as "Page 3 of 12" behind every page. */
module Pdf {

  datatype Doc = Doc(content: string, page: int, totalPages: int, fileName: string)

  /** Panicked: a slice of the text would end before it starts, or start after the end of the text. */
  datatype Loaded = Docs(docs: seq<Doc>) | Panicked

  function Digit(n: nat): char
    requires n < 10
  {
    "0123456789"[n]
  }

  /** The decimal digits of n. */
  function Digits(n: nat): (r: string)
    ensures (|r| == 1 <==> n < 10) && r != "" && forall j :: 0 <= j < |r| ==> '0' <= r[j] <= '9'
  {
    if n < 10 then [Digit(n)] else Digits(n / 10) + [Digit(n % 10)]
  }

  function Number(n: int): string
  {
    if n < 0 then "-" + Digits(-n) else Digits(n)
  }

  function Key(page: int, pages: int): string
  {
    "Page " + Number(page) + " of " + Number(pages)
  }

  predicate OccursAt(s: string, key: string, i: int)
  {
    0 <= i && i + |key| <= |s| && s[i..i + |key|] == key
  }

  /** The first occurrence from i on; -1 if there is none. */
  function Find(s: string, key: string, i: nat): int
    decreases |s| - i
  {
    if i + |key| > |s| then -1
    else if OccursAt(s, key, i) then i
    else if i == |s| then -1
    else Find(s, key, i + 1)
  }

  /** What the loop does for one page: go on behind its marker, end with the rest of the text, or panic. */
  datatype Turned = Next(doc: Doc, from: nat) | Last(doc: Doc) | Stuck

  function Turn(text: string, fileName: string, pages: int, page: int, from: nat): Turned
  {
    var key := Key(page, pages);
    var idx := Find(text, key, 0);
    if idx < 0 then
      if from <= |text| then Last(Doc(text[from..], page, page, fileName)) else Stuck
    else if from <= idx <= |text| then Next(Doc(text[from..idx], page, pages, fileName), idx + |key| + 1)
    else Stuck
  }

  function Prepend(docs: seq<Doc>, l: Loaded): Loaded
  {
    match l
    case Docs(more) => Docs(docs + more)
    case Panicked => Panicked
  }

  /** The pages from the given one on; the text before from is used up. */
  function LoadFrom(text: string, fileName: string, pages: int, page: int, from: nat): Loaded
    decreases pages - page
  {
    if page > pages then Docs([])
    else
      match Turn(text, fileName, pages, page, from)
      case Next(doc, next) => Prepend([doc], LoadFrom(text, fileName, pages, page + 1, next))
      case Last(doc) => Docs([doc])
      case Stuck => Panicked
  }

  method Index(s: string, key: string) returns (idx: int)
    ensures idx == Find(s, key, 0)
  {
    idx := 0;
    while idx + |key| <= |s| && s[idx..idx + |key|] != key
      invariant 0 <= idx <= |s| + 1
      invariant idx <= |s| ==> Find(s, key, 0) == Find(s, key, idx)
      invariant idx > |s| ==> Find(s, key, 0) == -1
      decreases |s| + 1 - idx
    {
      idx := idx + 1;
    }
    if idx + |key| > |s| { idx := -1; }
  }

  method TurnPage(text: string, fileName: string, pages: int, page: int, from: nat) returns (r: Turned)
    ensures r == Turn(text, fileName, pages, page, from)
  {
    var key := Key(page, pages);
    var idx := Index(text, key);
    if idx < 0 {
      r := if from <= |text| then Last(Doc(text[from..], page, page, fileName)) else Stuck;
    } else if from <= idx <= |text| {
      r := Next(Doc(text[from..idx], page, pages, fileName), idx + |key| + 1);
    } else {
      r := Stuck;
    }
  }

  method Load(text: string, fileName: string, pages: int) returns (r: Loaded)
    ensures r == LoadFrom(text, fileName, pages, 1, 0)
  {
    var docs: seq<Doc> := [];
    var page, from := 1, 0;
    while page <= pages
      invariant 0 <= from
      invariant Prepend(docs, LoadFrom(text, fileName, pages, page, from)) == LoadFrom(text, fileName, pages, 1, 0)
    {
      var turned := TurnPage(text, fileName, pages, page, from);
      if turned.Stuck? { return Panicked; }
      if turned.Last? { return Docs(docs + [turned.doc]); }
      PrependOne(docs, turned.doc, LoadFrom(text, fileName, pages, page + 1, turned.from));
      docs, from, page := docs + [turned.doc], turned.from, page + 1;
    }
    return Docs(docs);
  }

  lemma {:induction false} PrependOne(docs: seq<Doc>, d: Doc, l: Loaded)
    ensures Prepend(docs + [d], l) == Prepend(docs, Prepend([d], l))
  {
    if l.Docs? { assert docs + [d] + l.docs == docs + ([d] + l.docs); }
  }

  // Markers

  lemma {:induction false} DigitsDetermine(a: nat, b: nat)
    requires Digits(a) == Digits(b)
    ensures a == b
  {
    var s := Digits(a);
    if a < 10 {
      DigitDetermines(a, b);
    } else {
      assert s[..|s| - 1] == Digits(a / 10) && s[..|s| - 1] == Digits(b / 10);
      DigitsDetermine(a / 10, b / 10);
      DigitDetermines(a % 10, b % 10);
    }
  }

  lemma {:induction false} DigitDetermines(a: nat, b: nat)
    requires a < 10 && b < 10 && Digit(a) == Digit(b)
    ensures a == b
  {
  }

  /** Two texts that agree begin with the same word. */
  lemma {:induction false} SameWord(a: string, b: string, s: string, t: string)
    requires ' ' !in a && ' ' !in b && a + " " <= s && b + " " <= t
    requires s <= t || t <= s
    ensures a == b
  {
    assert s[|a|] == ' ' && t[|b|] == ' ';
    assert forall j :: 0 <= j < |a| ==> s[j] == a[j];
    assert forall j :: 0 <= j < |b| ==> t[j] == b[j];
    assert |a| == |b|;
  }

  /** The string begins with a P and has no other. */
  predicate OneP(s: string)
  {
    s != "" && forall j :: 0 <= j < |s| ==> (s[j] == 'P' <==> j == 0)
  }

  lemma {:induction false} KeyHasOneP(page: nat, pages: nat)
    ensures OneP(Key(page, pages))
  {
    assert OneP("Page ");
    assert NoP(Digits(page)) && NoP(" of ") && NoP(Digits(pages));
    OnePOneMore("Page ", Digits(page));
    OnePOneMore("Page " + Digits(page), " of ");
    OnePOneMore("Page " + Digits(page) + " of ", Digits(pages));
  }

  predicate NoP(s: string)
  {
    forall j :: 0 <= j < |s| ==> s[j] != 'P'
  }

  lemma {:induction false} OnePOneMore(s: string, t: string)
    requires OneP(s) && NoP(t)
    ensures OneP(s + t)
  {
  }

  lemma {:induction false} DropPrefix(x: string, a: string, b: string)
    requires x + a <= x + b
    ensures a <= b
  {
    assert a == (x + a)[|x|..] && b == (x + b)[|x|..];
  }

  lemma {:induction false} KeySplit(page: nat, pages: nat, rest: string)
    ensures Key(page, pages) + rest == "Page " + ((Digits(page) + " ") + ("of " + Digits(pages) + rest))
  {
    assert " of " == " " + "of ";
    Regroup("Page ", Digits(page), " ", "of ", Digits(pages), rest);
  }

  lemma {:induction false} Regroup(a: string, b: string, c: string, d: string, e: string, f: string)
    ensures a + b + (c + d) + e + f == a + ((b + c) + (d + e + f))
  {
  }

  /** Where one marker stands, no other does. */
  lemma {:induction false} MarkersDiffer(p: nat, q: nat, pages: nat, rest: string)
    requires Key(q, pages) <= Key(p, pages) + rest
    ensures p == q
  {
    KeySplit(p, pages, rest);
    KeySplit(q, pages, "");
    assert Key(q, pages) + "" == Key(q, pages);
    var s, t := (Digits(q) + " ") + ("of " + Digits(pages) + ""), (Digits(p) + " ") + ("of " + Digits(pages) + rest);
    DropPrefix("Page ", s, t);
    SameWord(Digits(q), Digits(p), s, t);
    DigitsDetermine(p, q);
  }

  // A text of marked pages

  /** The first n pages, each with its marker and one more character. */
  function Joined(contents: seq<string>, ends: seq<char>, n: nat): string
    requires n <= |contents| && |ends| == |contents|
  {
    if n == 0 then "" else Joined(contents, ends, n - 1) + Block(contents[n - 1], n, |contents|, ends[n - 1])
  }

  function Block(content: string, page: nat, pages: nat, end: char): string
  {
    content + (Key(page, pages) + [end])
  }

  ghost predicate NoMarker(s: string, pages: nat)
  {
    forall q: nat, i: int :: 1 <= q <= pages ==> !OccursAt(s, Key(q, pages), i)
  }

  /** No page holds a marker, and no marker is followed by a P. */
  ghost predicate WellMarked(contents: seq<string>, ends: seq<char>)
  {
    && |ends| == |contents|
    && (forall i :: 0 <= i < |contents| ==> NoMarker(contents[i], |contents|))
    && (forall i :: 0 <= i < |ends| ==> ends[i] != 'P')
  }

  /** The place of the marker of page q. */
  function MarkerAt(contents: seq<string>, ends: seq<char>, q: nat): nat
    requires 1 <= q <= |contents| && |ends| == |contents|
  {
    |Joined(contents, ends, q - 1)| + |contents[q - 1]|
  }

  lemma {:induction false} OccursInside(s: string, rest: string, key: string, i: int)
    requires OccursAt(s + rest, key, i) && i + |key| <= |s|
    ensures OccursAt(s, key, i)
  {
    assert (s + rest)[i..i + |key|] == s[i..i + |key|];
  }

  lemma {:induction false} OccursBehind(s: string, rest: string, key: string, i: int)
    requires OccursAt(s + rest, key, i) && |s| <= i
    ensures OccursAt(rest, key, i - |s|)
  {
    assert (s + rest)[i..i + |key|] == rest[i - |s|..i - |s| + |key|];
  }

  lemma {:induction false} StartsUpTo(content: string, rest: string, key: string, i: int)
    requires OneP(key) && rest != "" && rest[0] == 'P'
    requires OccursAt(content + rest, key, i) && i <= |content|
    ensures OccursAt(content, key, i) || i == |content|
  {
    var s := content + rest;
    if i + |key| <= |content| {
      OccursInside(content, rest, key, i);
    } else {
      assert s[|content|] == key[|content| - i];
    }
  }

  lemma {:induction false} StartsBehind(mark: string, tail: string, key: string, j: int)
    requires OneP(key) && OneP(mark) && tail != "" && tail[0] != 'P'
    requires OccursAt(mark + tail, key, j) && j <= |mark|
    ensures j == 0
  {
    assert (mark + tail)[j] == key[0];
    assert (mark + tail)[|mark|] == tail[0];
  }

  lemma {:induction false} BlockRegroups(content: string, p: nat, pages: nat, end: char, rest: string)
    ensures Block(content, p, pages, end) + rest == content + (Key(p, pages) + ([end] + rest))
  {
    var mark := Key(p, pages);
    assert content + (mark + [end]) + rest == content + (mark + ([end] + rest));
  }

  /** A marker that starts in a block starts in its page, or is its marker. */
  lemma {:induction false} MarkerInBlock(content: string, p: nat, pages: nat, end: char, rest: string, q: nat, i: int)
    requires end != 'P' && i < |Block(content, p, pages, end)|
    requires OccursAt(Block(content, p, pages, end) + rest, Key(q, pages), i)
    ensures OccursAt(content, Key(q, pages), i) || (i == |content| && p == q)
  {
    var key, mark, tail := Key(q, pages), Key(p, pages), [end] + rest;
    BlockRegroups(content, p, pages, end, rest);
    KeyHasOneP(q, pages);
    KeyHasOneP(p, pages);
    if i <= |content| { StartsUpTo(content, mark + tail, key, i); }
    if i >= |content| {
      OccursBehind(content, mark + tail, key, i);
      StartsBehind(mark, tail, key, i - |content|);
      assert key <= mark + tail;
      MarkersDiffer(p, q, pages, tail);
    }
  }

  lemma {:induction false} Associate(a: string, b: string, c: string)
    ensures a + b + c == a + (b + c)
  {
  }

  /** In the joined text a marker stands at its own place only. */
  lemma {:induction false} MarkerOnlyAt(contents: seq<string>, ends: seq<char>, n: nat, rest: string, q: nat, i: int)
    requires WellMarked(contents, ends) && n <= |contents| && 1 <= q <= |contents|
    requires OccursAt(Joined(contents, ends, n) + rest, Key(q, |contents|), i) && i < |Joined(contents, ends, n)|
    ensures i == MarkerAt(contents, ends, q)
  {
    var before := Joined(contents, ends, n - 1);
    var block := Block(contents[n - 1], n, |contents|, ends[n - 1]);
    Associate(before, block, rest);
    if i < |before| {
      MarkerOnlyAt(contents, ends, n - 1, block + rest, q, i);
    } else {
      OccursBehind(before, block + rest, Key(q, |contents|), i);
      MarkerInBlock(contents[n - 1], n, |contents|, ends[n - 1], rest, q, i - |before|);
    }
  }

  lemma {:induction false} JoinedSplits(contents: seq<string>, ends: seq<char>, q: nat, n: nat) returns (mid: string)
    requires q <= n <= |contents| && |ends| == |contents|
    ensures Joined(contents, ends, n) == Joined(contents, ends, q) + mid
    decreases n - q
  {
    if q == n {
      mid := "";
    } else {
      mid := JoinedSplits(contents, ends, q, n - 1);
      Associate(Joined(contents, ends, q), mid, Block(contents[n - 1], n, |contents|, ends[n - 1]));
      mid := mid + Block(contents[n - 1], n, |contents|, ends[n - 1]);
    }
  }

  lemma {:induction false} FindIs(s: string, key: string, from: nat, i: nat)
    requires OccursAt(s, key, i) && from <= i && forall j :: from <= j < i ==> !OccursAt(s, key, j)
    ensures Find(s, key, from) == i
    decreases i - from
  {
    if from < i { FindIs(s, key, from + 1, i); }
  }

  lemma {:induction false} FindNone(s: string, key: string, from: nat)
    requires key != "" && forall j :: from <= j ==> !OccursAt(s, key, j)
    ensures Find(s, key, from) == -1
    decreases |s| - from
  {
    if from < |s| { FindNone(s, key, from + 1); }
  }

  /** Looking from the start of the text finds the marker of the page, whatever follows the marked pages. */
  lemma {:induction false} FindsMarker(contents: seq<string>, ends: seq<char>, n: nat, rest: string, q: nat)
    requires WellMarked(contents, ends) && 1 <= q <= n <= |contents|
    ensures var text := Joined(contents, ends, n) + rest;
            Find(text, Key(q, |contents|), 0) == MarkerAt(contents, ends, q) && MarkedPage(text, contents, ends, q)
  {
    var text, key, at := Joined(contents, ends, n) + rest, Key(q, |contents|), MarkerAt(contents, ends, q);
    var mid := JoinedSplits(contents, ends, q, n);
    Associate(Joined(contents, ends, q), mid, rest);
    PageInText(text, contents, ends, q, mid + rest);
    forall j | 0 <= j < at ensures !OccursAt(text, key, j) {
      if OccursAt(text, key, j) {
        MarkerOnlyAt(contents, ends, n, rest, q, j);
      }
    }
    FindIs(text, key, 0, at);
  }

  /** In a text without its marker a page has none. */
  lemma {:induction false} MissesMarker(contents: seq<string>, ends: seq<char>, n: nat)
    requires WellMarked(contents, ends) && n < |contents|
    ensures Find(Joined(contents, ends, n) + contents[n], Key(n + 1, |contents|), 0) == -1
  {
    var before, key := Joined(contents, ends, n), Key(n + 1, |contents|);
    forall j | 0 <= j ensures !OccursAt(before + contents[n], key, j) {
      if OccursAt(before + contents[n], key, j) {
        if j < |before| {
          MarkerOnlyAt(contents, ends, n, contents[n], n + 1, j);
        } else {
          OccursBehind(before, contents[n], key, j);
        }
      }
    }
    FindNone(before + contents[n], key, 0);
  }

  /** The page and its marker lie between the markers of the pages before and the rest. */
  ghost predicate MarkedPage(text: string, contents: seq<string>, ends: seq<char>, q: nat)
    requires 1 <= q <= |contents| && |ends| == |contents|
  {
    var from, at := |Joined(contents, ends, q - 1)|, MarkerAt(contents, ends, q);
    && OccursAt(text, Key(q, |contents|), at)
    && from <= at <= |text| && text[from..at] == contents[q - 1]
    && |Joined(contents, ends, q)| == at + |Key(q, |contents|)| + 1
  }

  lemma {:induction false} PageInText(text: string, contents: seq<string>, ends: seq<char>, q: nat, rest: string)
    requires 1 <= q <= |contents| && |ends| == |contents| && text == Joined(contents, ends, q) + rest
    ensures MarkedPage(text, contents, ends, q)
  {
    var before, key, tail := Joined(contents, ends, q - 1), Key(q, |contents|), [ends[q - 1]] + rest;
    BlockSplits(before, contents[q - 1], key, [ends[q - 1]], rest);
    Middle(before, contents[q - 1], key, tail);
  }

  lemma {:induction false} BlockSplits(a: string, b: string, c: string, d: string, e: string)
    ensures a + (b + (c + d)) + e == a + b + c + (d + e)
  {
  }

  lemma {:induction false} Middle(a: string, b: string, c: string, d: string)
    ensures var s := a + b + c + d;
            s[|a|..|a| + |b|] == b && OccursAt(s, c, |a| + |b|)
  {
  }

  /** The pages after the first k, up to the n-th. */
  function Pages(contents: seq<string>, fileName: string, k: nat, n: nat): (r: seq<Doc>)
    requires k <= n <= |contents|
    ensures |r| == n - k
    ensures forall i :: 0 <= i < |r| ==> r[i] == Doc(contents[k + i], k + i + 1, |contents|, fileName)
  {
    seq(n - k, i requires 0 <= i < n - k => Doc(contents[k + i], k + i + 1, |contents|, fileName))
  }

  lemma {:induction false} TurnsMarked(contents: seq<string>, ends: seq<char>, fileName: string, n: nat, rest: string,
                                       q: nat, text: string)
    requires WellMarked(contents, ends) && 1 <= q <= n <= |contents| && text == Joined(contents, ends, n) + rest
    ensures Turn(text, fileName, |contents|, q, |Joined(contents, ends, q - 1)|)
         == Next(Doc(contents[q - 1], q, |contents|, fileName), |Joined(contents, ends, q)|)
  {
    FindsMarker(contents, ends, n, rest, q);
  }

  /** The marked pages of a text come first, and what follows them is loaded on its own. */
  lemma {:induction false} LoadsFrom(contents: seq<string>, ends: seq<char>, fileName: string, n: nat, rest: string,
                                     k: nat, text: string)
    requires WellMarked(contents, ends) && k <= n <= |contents| && text == Joined(contents, ends, n) + rest
    ensures LoadFrom(text, fileName, |contents|, k + 1, |Joined(contents, ends, k)|)
         == Prepend(Pages(contents, fileName, k, n),
                    LoadFrom(text, fileName, |contents|, n + 1, |Joined(contents, ends, n)|))
    decreases n - k
  {
    var end := LoadFrom(text, fileName, |contents|, n + 1, |Joined(contents, ends, n)|);
    if k < n {
      TurnsMarked(contents, ends, fileName, n, rest, k + 1, text);
      LoadsFrom(contents, ends, fileName, n, rest, k + 1, text);
      PagesSplit(contents, fileName, k, n);
      PrependTwice([Doc(contents[k], k + 1, |contents|, fileName)], Pages(contents, fileName, k + 1, n), end);
    } else {
      assert end.Docs? ==> [] + end.docs == end.docs;
    }
  }

  lemma {:induction false} PrependTwice(a: seq<Doc>, b: seq<Doc>, l: Loaded)
    ensures Prepend(a, Prepend(b, l)) == Prepend(a + b, l)
  {
    if l.Docs? { assert a + (b + l.docs) == a + b + l.docs; }
  }

  lemma {:induction false} PagesSplit(contents: seq<string>, fileName: string, k: nat, n: nat)
    requires k < n <= |contents|
    ensures Pages(contents, fileName, k, n)
         == [Doc(contents[k], k + 1, |contents|, fileName)] + Pages(contents, fileName, k + 1, n)
  {
  }

  /** A text of pages with their markers is split into exactly these pages, in order. */
  lemma {:induction false} LoadsPages(contents: seq<string>, ends: seq<char>, fileName: string)
    requires WellMarked(contents, ends)
    ensures LoadFrom(Joined(contents, ends, |contents|), fileName, |contents|, 1, 0)
         == Docs(Pages(contents, fileName, 0, |contents|))
  {
    LoadsAll(contents, ends, fileName, |contents|, 0, Joined(contents, ends, |contents|));
  }

  lemma {:induction false} LoadsAll(contents: seq<string>, ends: seq<char>, fileName: string, n: nat, k: nat, text: string)
    requires WellMarked(contents, ends) && k <= n == |contents| && text == Joined(contents, ends, n)
    ensures LoadFrom(text, fileName, n, k + 1, |Joined(contents, ends, k)|) == Docs(Pages(contents, fileName, k, n))
  {
    assert text + "" == text;
    LoadsFrom(contents, ends, fileName, n, "", k, text);
    NoMorePages(text, fileName, n, |text|, Pages(contents, fileName, k, n));
  }

  lemma {:induction false} NoMorePages(text: string, fileName: string, pages: nat, from: nat, docs: seq<Doc>)
    ensures Prepend(docs, LoadFrom(text, fileName, pages, pages + 1, from)) == Docs(docs)
  {
    assert docs + [] == docs;
  }

  /**
   If the marker of a page and everything behind it is missing, that page is the last one, with the whole rest of the
   text; it is told as the last of that many pages, and not of as many as the file says.
   */
  lemma {:induction false} LoadsRest(contents: seq<string>, ends: seq<char>, fileName: string, n: nat)
    requires WellMarked(contents, ends) && n < |contents|
    ensures LoadFrom(Joined(contents, ends, n) + contents[n], fileName, |contents|, 1, 0)
         == Docs(Pages(contents, fileName, 0, n) + [Doc(contents[n], n + 1, n + 1, fileName)])
  {
    var before := Joined(contents, ends, n);
    LoadsFrom(contents, ends, fileName, n, contents[n], 0, before + contents[n]);
    MissesMarker(contents, ends, n);
    assert (before + contents[n])[|before|..] == contents[n];
  }

  // When the loader panics

  function Mark(text: string, pages: int, page: int): int
  {
    Find(text, Key(page, pages), 0)
  }

  /** Where the text of a page starts: behind the marker before it, of which one character follows. */
  function StartOf(text: string, pages: int, page: int): int
  {
    if page <= 1 then 0 else Mark(text, pages, page - 1) + |Key(page - 1, pages)| + 1
  }

  ghost predicate FoundBefore(text: string, pages: int, page: int)
  {
    forall j :: 1 <= j < page ==> Mark(text, pages, j) >= 0
  }

  /** If the markers before are found, the page starts before its own marker, or before the end if it has none. */
  ghost predicate Fits(text: string, pages: int, page: int)
  {
    FoundBefore(text, pages, page) ==>
      StartOf(text, pages, page) <= if Mark(text, pages, page) < 0 then |text| else Mark(text, pages, page)
  }

  ghost predicate AllFit(text: string, pages: int, page: int)
  {
    forall p :: page <= p <= pages ==> Fits(text, pages, p)
  }

  lemma {:induction false} AllFitSplit(text: string, pages: int, page: int)
    requires page <= pages
    ensures AllFit(text, pages, page) <==> Fits(text, pages, page) && AllFit(text, pages, page + 1)
  {
  }

  lemma {:induction false} NoneBehindMissing(text: string, pages: int, page: int)
    requires 1 <= page && Mark(text, pages, page) < 0
    ensures AllFit(text, pages, page + 1)
  {
    forall p | page < p <= pages ensures !FoundBefore(text, pages, p) {}
  }

  lemma {:induction false} FindBounds(s: string, key: string, i: nat)
    ensures -1 <= Find(s, key, i) <= |s|
    decreases |s| - i
  {
    if i + |key| <= |s| && !OccursAt(s, key, i) && i < |s| { FindBounds(s, key, i + 1); }
  }

  lemma {:induction false} TurnCases(text: string, fileName: string, pages: int, page: int, from: nat)
    ensures var mark, turned := Mark(text, pages, page), Turn(text, fileName, pages, page, from);
            && (turned.Stuck? <==> from > if mark < 0 then |text| else mark)
            && (turned.Next? ==> mark >= 0 && turned.from == mark + |Key(page, pages)| + 1)
            && (turned.Last? ==> mark < 0)
  {
    FindBounds(text, Key(page, pages), 0);
  }

  lemma {:induction false} TurnFits(text: string, fileName: string, pages: int, page: int, from: nat)
    requires 1 <= page <= pages && FoundBefore(text, pages, page) && from == StartOf(text, pages, page)
    ensures var turned := Turn(text, fileName, pages, page, from);
            match turned
            case Next(_, next) =>
              && (AllFit(text, pages, page) <==> AllFit(text, pages, page + 1))
              && FoundBefore(text, pages, page + 1) && next == StartOf(text, pages, page + 1)
            case Last(_) => AllFit(text, pages, page)
            case Stuck => !AllFit(text, pages, page)
  {
    TurnCases(text, fileName, pages, page, from);
    AllFitSplit(text, pages, page);
    if Mark(text, pages, page) < 0 { NoneBehindMissing(text, pages, page); }
  }

  lemma {:induction false} LoadsBy(text: string, fileName: string, pages: int, page: int, from: nat)
    requires page <= pages
    ensures LoadFrom(text, fileName, pages, page, from).Docs? <==>
              match Turn(text, fileName, pages, page, from)
              case Next(_, next) => LoadFrom(text, fileName, pages, page + 1, next).Docs?
              case Last(_) => true
              case Stuck => false
  {
  }

  lemma {:induction false} LoadsFromIff(text: string, fileName: string, pages: int, page: int, from: nat)
    requires 1 <= page && FoundBefore(text, pages, page) && from == StartOf(text, pages, page)
    ensures LoadFrom(text, fileName, pages, page, from).Docs? <==> AllFit(text, pages, page)
    decreases pages - page
  {
    if page <= pages {
      TurnFits(text, fileName, pages, page, from);
      LoadsBy(text, fileName, pages, page, from);
      match Turn(text, fileName, pages, page, from)
      case Next(_, next) => LoadsFromIff(text, fileName, pages, page + 1, next);
      case Last(_) =>
      case Stuck =>
    }
  }

  /**
   The loader returns pages, and does not panic, exactly if every marker that it comes to lies behind the one before it
   with at least one character between, or, being missing, leaves a rest of the text.
   */
  lemma {:induction false} LoadsIff(text: string, fileName: string, pages: int)
    ensures LoadFrom(text, fileName, pages, 1, 0).Docs? <==> AllFit(text, pages, 1)
  {
    LoadsFromIff(text, fileName, pages, 1, 0);
  }

  /** A text that breaks off behind the marker of an early page makes it panic. */
  lemma {:induction false} BrokenOffTextPanics(fileName: string)
    ensures LoadFrom("Page 1 of 2", fileName, 2, 1, 0) == Panicked
  {
    var text := "Page 1 of 2";
    assert Digits(1) == "1" && Digits(2) == "2";
    assert Key(1, 2) == text && Key(2, 2) == "Page 2 of 2";
    assert text[0..|text|] == text;
    FindIs(text, Key(1, 2), 0, 0);
    assert text[5] != Key(2, 2)[5];
    assert Find(text, Key(2, 2), 0) == -1;
    assert Turn(text, fileName, 2, 2, 12) == Stuck;
    assert LoadFrom(text, fileName, 2, 2, 12) == Panicked;
  }
}
