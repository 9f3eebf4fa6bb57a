// The one-page PDF around a JPEG: five objects, a cross-reference table, and a
// reader that finds everything back from the end of the file.
module Pdfs {
  import opened Wrappers
  import opened Text
  import opened Decimals

  // ----- lines -----

  function Lines(ls: seq<string>): string {
    if ls == [] then "" else ls[0] + ['\n'] + Lines(ls[1..])
  }

  lemma {:induction false} LinesAppend(a: seq<string>, b: seq<string>)
    ensures Lines(a + b) == Lines(a) + Lines(b)
  {
    if a == [] {
      assert a + b == b;
    } else {
      assert (a + b)[1..] == a[1..] + b;
      LinesAppend(a[1..], b);
    }
  }

  predicate OneLineEach(ls: seq<string>) {
    forall k :: 0 <= k < |ls| ==> '\n' !in ls[k]
  }

  lemma LineFirst(ls: seq<string>, text: string)
    requires ls != [] && '\n' !in ls[0] && Split(text, '\n') == ls[1..] + [""]
    ensures Split(ls[0] + ['\n'] + text, '\n') == ls + [""]
  {
    SplitStep(ls[0], text, '\n');
    assert ls == [ls[0]] + ls[1..];
    ConcatAssoc([ls[0]], ls[1..], [""]);
  }

  lemma {:induction false} SplitLines(ls: seq<string>)
    requires OneLineEach(ls)
    ensures Split(Lines(ls), '\n') == ls + [""]
  {
    if ls == [] {
      SplitWhole("", '\n');
    } else {
      SplitLines(ls[1..]);
      LineFirst(ls, Lines(ls[1..]));
    }
  }

  lemma {:induction false} JoinAcross(parts: seq<string>, b: string, c: char)
    requires |parts| >= 1 && forall k :: 0 <= k < |parts| ==> c !in parts[k]
    ensures Split(Join(parts, c) + [c] + b, c) == parts + Split(b, c)
  {
    if |parts| == 1 {
      SplitStep(parts[0], b, c);
    } else {
      JoinAcross(parts[1..], b, c);
      AcrossStep(parts, Join(parts[1..], c), b, c);
    }
  }

  lemma AcrossStep(parts: seq<string>, rest: string, b: string, c: char)
    requires parts != [] && c !in parts[0] && Split(rest + [c] + b, c) == parts[1..] + Split(b, c)
    ensures Split(parts[0] + [c] + rest + [c] + b, c) == parts + Split(b, c)
  {
    SplitFirst(parts[0], rest, b, c);
    assert parts == [parts[0]] + parts[1..];
    ConcatAssoc([parts[0]], parts[1..], Split(b, c));
  }

  lemma SplitFirst(first: string, rest: string, b: string, c: char)
    requires c !in first
    ensures Split(first + [c] + rest + [c] + b, c) == [first] + Split(rest + [c] + b, c)
  {
    assert first + [c] + rest + [c] + b == first + [c] + (rest + [c] + b);
    SplitStep(first, rest + [c] + b, c);
  }

  lemma SplitAcross(a: string, b: string, c: char)
    ensures Split(a + [c] + b, c) == Split(a, c) + Split(b, c)
  {
    JoinSplit(a, c);
    JoinAcross(Split(a, c), b, c);
  }

  // ----- the document -----

  const HEADER := "%PDF-1.4\n%\U{E2}\U{E3}\U{CF}\U{D3}\n"

  const XREF_HEAD: seq<string> := ["xref", "0 6", "0000000000 65535 f"]

  // Words on one line.
  function Words(ws: seq<string>): string
    requires |ws| >= 1
  {
    Join(ws, ' ')
  }

  const TRAILER: seq<string> := ["<<", "/Size", "6", "/Root", "1", "0", "R", ">>"]

  const CATALOG: seq<string> := ["<<", "/Type", "/Catalog", "/Pages", "2", "0", "R", ">>"]

  const PAGES: seq<string> := ["<<", "/Type", "/Pages", "/Kids", "[3", "0", "R]", "/Count", "1", ">>"]

  // {n:010}
  function Padded(n: nat): (s: string)
    ensures s != "" && AllDigits(s)
  {
    Zeros(10 - |FromNat(n)|) + FromNat(n)
  }

  function Entry(offset: nat): string {
    Padded(offset) + [' '] + "00000 n"
  }

  function Trailer(xref: nat): seq<string> {
    ["trailer", Words(TRAILER), "startxref", FromNat(xref), "%%EOF"]
  }

  function Object(n: nat, body: string): string {
    FromNat(n) + " 0 obj" + ['\n'] + (body + "\nendobj\n")
  }

  // The file up to and including object k.
  function Prefix(bodies: seq<string>, k: nat): string
    requires k <= |bodies|
  {
    if k == 0 then HEADER else Prefix(bodies, k - 1) + Object(k, bodies[k - 1])
  }

  function Offset(bodies: seq<string>, n: nat): nat
    requires 0 < n <= |bodies|
  {
    |Prefix(bodies, n - 1)|
  }

  // The table's first k entries.
  function Entries(bodies: seq<string>, k: nat): (ls: seq<string>)
    requires k <= |bodies|
    ensures |ls| == k
  {
    if k == 0 then [] else Entries(bodies, k - 1) + [Entry(Offset(bodies, k))]
  }

  function Tail(bodies: seq<string>): seq<string> {
    XREF_HEAD + Entries(bodies, |bodies|) + Trailer(|Prefix(bodies, |bodies|)|)
  }

  function Document(bodies: seq<string>): string {
    Prefix(bodies, |bodies|) + Lines(Tail(bodies))
  }

  // A dictionary that ends in its length, and the stream it announces.
  function Streamed(keys: string, data: string, end: string): string {
    keys + "/Length" + [' '] + FromNat(|data|) + " >>" + ['\n'] + ("stream" + ['\n'] + (data + end))
  }

  const PAGE_HEAD: seq<string> := ["<<", "/Type", "/Page", "/Parent", "2", "0", "R", "/MediaBox"]

  const PAGE_TAIL: seq<string> :=
    ["/Resources", "<<", "/XObject", "<<", "/Im0", "4", "0", "R", ">>", ">>", "/Contents", "5", "0", "R", ">>"]

  const IMAGE_HEAD: seq<string> := ["<<", "/Type", "/XObject", "/Subtype", "/Image"]

  const IMAGE_TAIL: seq<string> := ["/BitsPerComponent", "8", "/Filter", "/DCTDecode"]

  datatype Page = Page(width: nat, height: nat, gray: bool, jpeg: string) {
    function Matrix(): seq<string> {
      [FromNat(width), "0", "0", FromNat(height), "0", "0", "cm"]
    }

    function Content(): string {
      Lines(["q", Words(Matrix()), "/Im0 Do", "Q"])
    }

    function Box(): seq<string> {
      ["[0", "0", FromNat(width), FromNat(height) + "]"]
    }

    function PageWords(): seq<string> {
      PAGE_HEAD + (Box() + PAGE_TAIL)
    }

    function ColorSpace(): string {
      if gray then "/DeviceGray" else "/DeviceRGB"
    }

    // The image's dictionary before its length.
    function ImageWords(): seq<string> {
      IMAGE_HEAD + (["/Width", FromNat(width), "/Height", FromNat(height), "/ColorSpace", ColorSpace()] + IMAGE_TAIL)
    }

    function ImageKeys(): string {
      Words(ImageWords()) + " "
    }

    function Bodies(): (bodies: seq<string>)
      ensures |bodies| == 5
    {
      [ Words(CATALOG),
        Words(PAGES),
        Words(PageWords()),
        Streamed(ImageKeys(), jpeg, "\nendstream"),
        Streamed("<< ", Content(), "endstream") ]
    }
  }

  // ----- writing -----

  method EncodePdf(page: Page) returns (pdf: string)
    ensures pdf == Document(page.Bodies())
  {
    var offsets := new nat[6](_ => 0);
    var body := WriteObjects(page.Bodies(), offsets);
    pdf := WriteTable(page.Bodies(), body, offsets);
  }

  method WriteObjects(objects: seq<string>, offsets: array<nat>) returns (pdf: string)
    requires offsets.Length == |objects| + 1
    modifies offsets
    ensures pdf == Prefix(objects, |objects|)
    ensures forall k :: 0 < k <= |objects| ==> offsets[k] == Offset(objects, k)
  {
    pdf := HEADER;
    for number := 1 to |objects| + 1
      invariant pdf == Prefix(objects, number - 1)
      invariant forall k :: 0 < k < number ==> offsets[k] == Offset(objects, k)
    {
      offsets[number] := |pdf|;
      pdf := pdf + Object(number, objects[number - 1]);
    }
  }

  method WriteTable(ghost objects: seq<string>, body: string, offsets: array<nat>) returns (pdf: string)
    requires offsets.Length == |objects| + 1 && body == Prefix(objects, |objects|)
    requires forall k :: 0 < k <= |objects| ==> offsets[k] == Offset(objects, k)
    ensures pdf == Document(objects)
  {
    pdf := body + Lines(XREF_HEAD);
    assert XREF_HEAD + Entries(objects, 0) == XREF_HEAD;
    for k := 1 to offsets.Length
      invariant pdf == body + Lines(XREF_HEAD + Entries(objects, k - 1))
    {
      EntryAppends(objects, body, k);
      pdf := pdf + Lines([Entry(offsets[k])]);
    }
    LinesAppend(XREF_HEAD + Entries(objects, |objects|), Trailer(|body|));
    ConcatAssoc(body, Lines(XREF_HEAD + Entries(objects, |objects|)), Lines(Trailer(|body|)));
    pdf := pdf + Lines(Trailer(|body|));
  }

  lemma EntryAppends(objects: seq<string>, body: string, k: nat)
    requires 0 < k <= |objects|
    ensures body + Lines(XREF_HEAD + Entries(objects, k - 1)) + Lines([Entry(Offset(objects, k))])
         == body + Lines(XREF_HEAD + Entries(objects, k))
  {
    var before, line := Entries(objects, k - 1), [Entry(Offset(objects, k))];
    ConcatAssoc(XREF_HEAD, before, line);
    LinesAppend(XREF_HEAD + before, line);
    ConcatAssoc(body, Lines(XREF_HEAD + before), Lines(line));
  }

  // ----- reading -----

  predicate At(pdf: string, k: nat, text: string) {
    k + |text| <= |pdf| && pdf[k..k + |text|] == text
  }

  function ReadNumber(s: string): Option<nat> {
    if s != "" && AllDigits(s) then Some(ToNat(s)) else None
  }

  // The offset named by the last lines: startxref, the number, %%EOF.
  function XrefStart(pdf: string): Option<nat> {
    StartIn(Split(pdf, '\n'))
  }

  function StartIn(l: seq<string>): Option<nat> {
    if |l| >= 4 && l[|l| - 1] == "" && l[|l| - 2] == "%%EOF" && l[|l| - 4] == "startxref" then ReadNumber(l[|l| - 3])
    else None
  }

  // Entry n of the table there: an offset, a generation, the letter n.
  function EntryOffset(pdf: string, n: nat): Option<nat> {
    match XrefStart(pdf)
    case None => None
    case Some(x) => if x > |pdf| then None else EntryIn(Split(pdf[x..], '\n'), n)
  }

  function EntryIn(l: seq<string>, n: nat): Option<nat> {
    if |l| <= n + 2 || l[0] != "xref" || l[1] != "0 6" || l[2] != "0000000000 65535 f" then None
    else
      match SplitOnce(l[n + 2], ' ')
      case Some((offset, kind)) => if kind == "00000 n" then ReadNumber(offset) else None
      case None => None
  }

  // The stream of the object at k: its dictionary's line, as many bytes as the
  // dictionary's last entry says, and the keyword after them.
  function ReadStream(pdf: string, k: nat): Option<string>
    requires k <= |pdf|
  {
    StreamIn(pdf[k..])
  }

  function StreamIn(text: string): Option<string> {
    match SplitOnce(text, '\n')
    case None => None
    case Some((head, rest)) =>
      match SplitOnce(rest, '\n')
      case None => None
      case Some((dict, more)) =>
        match SplitOnce(more, '\n')
        case None => None
        case Some((keyword, data)) => if keyword == "stream" then Announced(DictLength(dict), data) else None
  }

  function Announced(length: Option<nat>, data: string): Option<string> {
    if length.None? || length.value > |data| then None
    else
      var after := data[length.value..];
      if "endstream" <= after || "\nendstream" <= after then Some(data[..length.value]) else None
  }

  function DictLength(dict: string): Option<nat> {
    if |dict| < 3 || dict[|dict| - 3..] != " >>" then None
    else
      match RSplitOnce(dict[..|dict| - 3], ' ')
      case Some((keys, n)) => if |keys| >= 7 && keys[|keys| - 7..] == "/Length" then ReadNumber(n) else None
      case None => None
  }

  // The dictionary on the second line of the object at k.
  function DictAt(pdf: string, k: nat): Option<string> {
    if k > |pdf| then None
    else
      match SplitOnce(pdf[k..], '\n')
      case None => None
      case Some((head, rest)) =>
        match SplitOnce(rest, '\n')
        case None => None
        case Some((dict, _)) => Some(dict)
  }

  // The word after the first one that is `key`.
  function ValueOf(words: seq<string>, key: string): Option<string> {
    var i := Find(words, key);
    if i + 1 < |words| then Some(words[i + 1]) else None
  }

  function NumberOf(words: seq<string>, key: string): Option<nat> {
    match ValueOf(words, key)
    case Some(word) => ReadNumber(word)
    case None => None
  }

  // The far corner of a page's box, the near one being the origin.
  function MediaBox(words: seq<string>): Option<(nat, nat)> {
    var i := Find(words, "/MediaBox");
    if i + 4 < |words| then BoxIn(words[i + 1..i + 5]) else None
  }

  function BoxIn(box: seq<string>): Option<(nat, nat)>
    requires |box| == 4
  {
    var n := |box[3]|;
    if box[0] != "[0" || box[1] != "0" || n == 0 || box[3][n - 1] != ']' then None
    else
      match (ReadNumber(box[2]), ReadNumber(box[3][..n - 1]))
      case (Some(w), Some(h)) => Some((w, h))
      case _ => None
  }

  // How large a page's content draws its image: the scales of the matrix.
  function DrawnSides(content: string): Option<(nat, nat)> {
    var lines := Split(content, '\n');
    if |lines| < 3 || lines[0] != "q" || lines[2] != "/Im0 Do" then None else Scales(Split(lines[1], ' '))
  }

  function Scales(m: seq<string>): Option<(nat, nat)> {
    if |m| != 7 || m[1..3] != ["0", "0"] || m[4..] != ["0", "0", "cm"] then None
    else
      match (ReadNumber(m[0]), ReadNumber(m[3]))
      case (Some(w), Some(h)) => Some((w, h))
      case _ => None
  }

  // ----- what the reader finds -----

  lemma NumberReads(n: nat)
    ensures ReadNumber(FromNat(n)) == Some(n)
  {
    ToNatFromNat(n);
  }

  // A table line gives back its offset, however many digits it has.
  lemma EntryReads(offset: nat)
    ensures SplitOnce(Entry(offset), ' ') == Some((Padded(offset), "00000 n"))
    ensures ReadNumber(Padded(offset)) == Some(offset)
    ensures '\n' !in Entry(offset)
  {
    SplitOnceAt(Padded(offset), "00000 n", ' ');
    PaddingReads(10 - |FromNat(offset)|, FromNat(offset));
    ToNatFromNat(offset);
  }

  lemma {:induction false} PrefixInside(bodies: seq<string>, n: nat, k: nat)
    requires n <= k <= |bodies|
    ensures Prefix(bodies, n) <= Prefix(bodies, k)
  {
    if n < k {
      PrefixInside(bodies, n, k - 1);
    }
  }

  lemma {:induction false} EntriesHold(bodies: seq<string>, k: nat, n: nat)
    requires 0 < n <= k <= |bodies|
    ensures Entries(bodies, k)[n - 1] == Entry(Offset(bodies, n))
  {
    if n < k {
      EntriesHold(bodies, k - 1, n);
    }
  }

  lemma {:induction false} EntriesOneLine(bodies: seq<string>, k: nat)
    requires k <= |bodies|
    ensures OneLineEach(Entries(bodies, k))
  {
    if k > 0 {
      EntriesOneLine(bodies, k - 1);
      EntryReads(Offset(bodies, k));
    }
  }

  lemma FrameOneLine(x: nat)
    ensures OneLineEach(XREF_HEAD) && OneLineEach(Trailer(x))
  {
    TrailerSolid();
    JoinOneLine(TRAILER);
    NumberOneLine(x);
    FixedLines();
  }

  lemma NumberOneLine(n: nat)
    ensures '\n' !in FromNat(n)
  {
  }

  lemma FixedLines()
    ensures '\n' !in "trailer" && '\n' !in "startxref" && '\n' !in "%%EOF"
    ensures OneLineEach(XREF_HEAD)
  {
  }

  lemma TailLines(bodies: seq<string>)
    ensures Split(Lines(Tail(bodies)), '\n') == Tail(bodies) + [""]
  {
    EntriesOneLine(bodies, |bodies|);
    FrameOneLine(|Prefix(bodies, |bodies|)|);
    SplitLines(Tail(bodies));
  }

  lemma PrefixEndsLine(bodies: seq<string>)
    ensures var p := Prefix(bodies, |bodies|); |p| > 0 && p[|p| - 1] == '\n'
  {
  }

  // The document's last lines are the trailer and an empty one.
  lemma DocumentEnds(bodies: seq<string>) returns (before: seq<string>)
    ensures Split(Document(bodies), '\n') == before + (Trailer(|Prefix(bodies, |bodies|)|) + [""])
  {
    var p, tail := Prefix(bodies, |bodies|), Tail(bodies);
    PrefixEndsLine(bodies);
    var front := p[..|p| - 1];
    assert Split(Document(bodies), '\n') == Split(front, '\n') + (tail + [""]) by {
      assert Document(bodies) == front + ['\n'] + Lines(tail);
      SplitAcross(front, Lines(tail), '\n');
      TailLines(bodies);
    }
    before := Split(front, '\n') + (XREF_HEAD + Entries(bodies, |bodies|));
    Regroup(Split(front, '\n'), XREF_HEAD + Entries(bodies, |bodies|), Trailer(|p|), [""]);
  }

  lemma Regroup(a: seq<string>, b: seq<string>, c: seq<string>, d: seq<string>)
    ensures a + ((b + c) + d) == (a + b) + (c + d)
  {
  }

  // startxref names the byte where the table begins.
  lemma XrefStartReads(bodies: seq<string>)
    ensures XrefStart(Document(bodies)) == Some(|Prefix(bodies, |bodies|)|)
  {
    var before := DocumentEnds(bodies);
    StartFound(before, |Prefix(bodies, |bodies|)|);
  }

  lemma StartFound(a: seq<string>, x: nat)
    ensures StartIn(a + (Trailer(x) + [""])) == Some(x)
  {
    var l := a + (Trailer(x) + [""]);
    assert l[|l| - 1] == "" && l[|l| - 2] == "%%EOF" && l[|l| - 3] == FromNat(x) && l[|l| - 4] == "startxref";
    NumberReads(x);
  }

  // Every entry names the byte where its object begins.
  lemma EntryFinds(bodies: seq<string>, n: nat)
    requires 0 < n <= |bodies|
    ensures EntryOffset(Document(bodies), n) == Some(Offset(bodies, n))
    ensures At(Document(bodies), Offset(bodies, n), Object(n, bodies[n - 1]))
  {
    var doc, p, tail := Document(bodies), Prefix(bodies, |bodies|), Tail(bodies);
    XrefStartReads(bodies);
    assert doc[|p|..] == Lines(tail);
    TailLines(bodies);
    EntryFound(bodies, n);
    ObjectAt(bodies, n);
  }

  lemma EntryFound(bodies: seq<string>, n: nat)
    requires 0 < n <= |bodies|
    ensures EntryIn(Tail(bodies) + [""], n) == Some(Offset(bodies, n))
  {
    EntriesHold(bodies, |bodies|, n);
    EntryReads(Offset(bodies, n));
    EntryAmong(Entries(bodies, |bodies|), Trailer(|Prefix(bodies, |bodies|)|), n, Offset(bodies, n));
  }

  lemma EntryAmong(entries: seq<string>, trailer: seq<string>, n: nat, offset: nat)
    requires 0 < n <= |entries| && entries[n - 1] == Entry(offset)
    requires SplitOnce(Entry(offset), ' ') == Some((Padded(offset), "00000 n"))
    requires ReadNumber(Padded(offset)) == Some(offset)
    ensures EntryIn(XREF_HEAD + entries + trailer + [""], n) == Some(offset)
  {
    var l := XREF_HEAD + entries + trailer + [""];
    assert l[0] == "xref" && l[1] == "0 6" && l[2] == "0000000000 65535 f" && l[n + 2] == entries[n - 1];
  }

  lemma ObjectAt(bodies: seq<string>, n: nat)
    requires 0 < n <= |bodies|
    ensures At(Document(bodies), Offset(bodies, n), Object(n, bodies[n - 1]))
  {
    var doc, before, text := Document(bodies), Prefix(bodies, n - 1), Object(n, bodies[n - 1]);
    PrefixInside(bodies, n, |bodies|);
    PrefixAt(doc, before, text);
  }

  lemma PrefixAt(doc: string, before: string, text: string)
    requires before + text <= doc
    ensures At(doc, |before|, text)
  {
    assert doc[..|before + text|] == before + text;
  }

  // A stream comes back whole, whatever its bytes.
  lemma StreamReads(pdf: string, k: nat, n: nat, keys: string, data: string, end: string)
    requires At(pdf, k, Object(n, Streamed(keys, data, end)))
    requires '\n' !in keys
    requires end == "endstream" || end == "\nendstream"
    ensures ReadStream(pdf, k) == Some(data)
  {
    var head, dict := FromNat(n) + " 0 obj", keys + "/Length" + [' '] + FromNat(|data|) + " >>";
    var whole := Object(n, Streamed(keys, data, end));
    var rest := pdf[k + |whole|..];
    OneLine(n, keys, |data|);
    AtSlice(pdf, k, whole);
    Nested(head + ['\n'], dict + ['\n'], "stream" + ['\n'], data, end, "\nendobj\n", rest);
    DictReads(keys, |data|);
    StreamFound(head, dict, data, end, "\nendobj\n" + rest);
  }

  lemma OneLine(n: nat, keys: string, length: nat)
    requires '\n' !in keys
    ensures '\n' !in FromNat(n) + " 0 obj"
    ensures '\n' !in keys + "/Length" + [' '] + FromNat(length) + " >>"
  {
  }

  lemma AtSlice(pdf: string, k: nat, text: string)
    requires At(pdf, k, text)
    ensures pdf[k..] == text + pdf[k + |text|..]
  {
  }

  lemma Nested(a: string, b: string, c: string, d: string, e: string, f: string, g: string)
    ensures a + ((b + (c + (d + e))) + f) + g == a + (b + (c + (d + (e + (f + g)))))
  {
    var x := c + (d + e);
    ConcatAssoc(a, (b + x) + f, g);
    ConcatAssoc(b + x, f, g);
    ConcatAssoc(b, x, f + g);
    ConcatAssoc(c, d + e, f + g);
    ConcatAssoc(d, e, f + g);
  }

  lemma StreamFound(head: string, dict: string, data: string, end: string, tail: string)
    requires '\n' !in head && '\n' !in dict && DictLength(dict) == Some(|data|)
    requires end == "endstream" || end == "\nendstream"
    ensures StreamIn(head + ['\n'] + (dict + ['\n'] + ("stream" + ['\n'] + (data + (end + tail))))) == Some(data)
  {
    var more := "stream" + ['\n'] + (data + (end + tail));
    SplitOnceAt(head, dict + ['\n'] + more, '\n');
    SplitOnceAt(dict, more, '\n');
    SplitOnceAt("stream", data + (end + tail), '\n');
    AnnouncedWhole(data, end, tail);
  }

  lemma AnnouncedWhole(data: string, end: string, tail: string)
    requires end == "endstream" || end == "\nendstream"
    ensures Announced(Some(|data|), data + (end + tail)) == Some(data)
  {
    var s := data + (end + tail);
    assert s[|data|..] == end + tail && s[..|data|] == data;
  }

  lemma DictReads(keys: string, n: nat)
    ensures DictLength(keys + "/Length" + [' '] + FromNat(n) + " >>") == Some(n)
  {
    var named := keys + "/Length";
    var front := named + [' '] + FromNat(n);
    assert named[|named| - 7..] == "/Length";
    assert (front + " >>")[|front|..] == " >>" && (front + " >>")[..|front|] == front;
    RSplitOnceAt(named, FromNat(n), ' ');
    NumberReads(n);
  }

  lemma AtStart(pdf: string, k: nat, a: string, b: string)
    requires At(pdf, k, a + b)
    ensures At(pdf, k, a)
  {
    assert pdf[k..k + |a|] == pdf[k..k + |a + b|][..|a|];
  }

  lemma TableAt(bodies: seq<string>)
    ensures At(Document(bodies), |Prefix(bodies, |bodies|)|, "xref\n")
  {
    assert Tail(bodies)[0] == "xref" && "xref" + ['\n'] == "xref\n";
    FirstLineAt(Prefix(bodies, |bodies|), Tail(bodies));
  }

  lemma FirstLineAt(before: string, ls: seq<string>)
    requires ls != []
    ensures At(before + Lines(ls), |before|, ls[0] + ['\n'])
  {
    var first, rest := ls[0] + ['\n'], Lines(ls[1..]);
    ConcatAssoc(before, first, rest);
    PrefixAt(before + Lines(ls), before, first);
  }

  lemma EntryNames(bodies: seq<string>, n: nat)
    requires 0 < n <= |bodies|
    ensures At(Document(bodies), Offset(bodies, n), FromNat(n) + " 0 obj\n")
  {
    ObjectAt(bodies, n);
    assert FromNat(n) + " 0 obj" + ['\n'] == FromNat(n) + " 0 obj\n";
    AtStart(Document(bodies), Offset(bodies, n), FromNat(n) + " 0 obj\n", bodies[n - 1] + "\nendobj\n");
  }

  lemma StreamBodyReads(bodies: seq<string>, n: nat, keys: string, data: string, end: string)
    requires 0 < n <= |bodies| && bodies[n - 1] == Streamed(keys, data, end) && '\n' !in keys
    requires end == "endstream" || end == "\nendstream"
    ensures Offset(bodies, n) <= |Document(bodies)| && ReadStream(Document(bodies), Offset(bodies, n)) == Some(data)
  {
    ObjectAt(bodies, n);
    StreamReads(Document(bodies), Offset(bodies, n), n, keys, data, end);
  }

  // ----- the page -----

  predicate SolidWord(w: string) {
    forall c :: c in w ==> c > ' '
  }

  // Words without spaces or line ends.
  predicate Solid(ws: seq<string>) {
    forall w {:trigger SolidWord(w)} :: w in ws ==> SolidWord(w)
  }

  lemma {:induction false} JoinOneLine(ws: seq<string>)
    requires |ws| >= 1 && Solid(ws)
    ensures '\n' !in Words(ws)
  {
    assert SolidWord(ws[0]);
    if |ws| > 1 {
      JoinOneLine(ws[1..]);
    }
  }

  lemma WordsRead(ws: seq<string>)
    requires |ws| >= 1 && Solid(ws)
    ensures Split(Words(ws), ' ') == ws
  {
    forall w | w in ws
      ensures ' ' !in w
    {
      assert SolidWord(w);
    }
    SplitJoin(ws, ' ');
  }

  lemma SolidBoth(a: seq<string>, b: seq<string>)
    requires Solid(a) && Solid(b)
    ensures Solid(a + b)
  {
  }

  lemma NumberSolid(n: nat)
    ensures SolidWord(FromNat(n)) && SolidWord(FromNat(n) + "]")
  {
  }

  lemma ShortWordsSolid()
    ensures SolidWord("<<") && SolidWord(">>") && SolidWord("0") && SolidWord("2") && SolidWord("4") && SolidWord("5")
    ensures SolidWord("8") && SolidWord("R") && SolidWord("[0") && SolidWord("cm")
  {
  }

  lemma PageNamesSolid()
    ensures SolidWord("/Type") && SolidWord("/Page") && SolidWord("/Parent") && SolidWord("/MediaBox")
  {
  }

  lemma ResourceNamesSolid()
    ensures SolidWord("/Resources") && SolidWord("/XObject") && SolidWord("/Im0") && SolidWord("/Contents")
  {
  }

  lemma ImageNamesSolid()
    ensures SolidWord("/Subtype") && SolidWord("/Image")
    ensures SolidWord("/Width") && SolidWord("/Height") && SolidWord("/ColorSpace")
  {
  }

  lemma ImageValuesSolid()
    ensures SolidWord("/BitsPerComponent") && SolidWord("/Filter") && SolidWord("/DCTDecode")
  {
  }

  lemma ColorSpacesSolid()
    ensures SolidWord("/DeviceGray") && SolidWord("/DeviceRGB")
  {
  }

  lemma TrailerNamesSolid()
    ensures SolidWord("/Size") && SolidWord("/Root") && SolidWord("/Catalog") && SolidWord("/Pages")
    ensures SolidWord("/Kids") && SolidWord("/Count") && SolidWord("[3") && SolidWord("R]")
    ensures SolidWord("1") && SolidWord("6")
  {
  }

  lemma TrailerSolid()
    ensures Solid(TRAILER)
  {
    ShortWordsSolid();
    TrailerNamesSolid();
  }

  lemma CatalogSolid()
    ensures Solid(CATALOG) && Solid(PAGES)
  {
    ShortWordsSolid();
    PageNamesSolid();
    TrailerNamesSolid();
  }

  lemma PageWordsSolid(page: Page)
    ensures Solid(page.PageWords())
  {
    ShortWordsSolid();
    PageNamesSolid();
    ResourceNamesSolid();
    NumberSolid(page.width);
    NumberSolid(page.height);
    assert Solid(PAGE_HEAD) && Solid(page.Box()) && Solid(PAGE_TAIL);
    SolidBoth(page.Box(), PAGE_TAIL);
    SolidBoth(PAGE_HEAD, page.Box() + PAGE_TAIL);
  }

  lemma ImageWordsSolid(page: Page)
    ensures Solid(page.ImageWords())
  {
    var sides := ["/Width", FromNat(page.width), "/Height", FromNat(page.height), "/ColorSpace", page.ColorSpace()];
    ShortWordsSolid();
    PageNamesSolid();
    ResourceNamesSolid();
    ImageNamesSolid();
    ImageValuesSolid();
    ColorSpacesSolid();
    NumberSolid(page.width);
    NumberSolid(page.height);
    assert Solid(IMAGE_HEAD) && Solid(sides) && Solid(IMAGE_TAIL);
    SolidBoth(sides, IMAGE_TAIL);
    SolidBoth(IMAGE_HEAD, sides + IMAGE_TAIL);
  }

  lemma MatrixSolid(page: Page)
    ensures Solid(page.Matrix())
  {
    ShortWordsSolid();
    NumberSolid(page.width);
    NumberSolid(page.height);
  }

  lemma ValueAt(words: seq<string>, k: nat, key: string, value: string)
    requires k + 1 < |words| && words[k] == key && words[k + 1] == value
    requires forall i :: 0 <= i < k ==> words[i] != key
    ensures ValueOf(words, key) == Some(value)
  {
    FindAt(words, key, k);
  }

  lemma NumberIsNoKey(n: nat, key: string)
    requires key != "" && !IsDigit(key[0])
    ensures FromNat(n) != key
  {
  }

  lemma WidthFound(page: Page, after: seq<string>)
    ensures NumberOf(page.ImageWords() + after, "/Width") == Some(page.width)
  {
    ValueAt(page.ImageWords() + after, 5, "/Width", FromNat(page.width));
    NumberReads(page.width);
  }

  lemma HeightFound(page: Page, after: seq<string>)
    ensures NumberOf(page.ImageWords() + after, "/Height") == Some(page.height)
  {
    NumberIsNoKey(page.width, "/Height");
    ValueAt(page.ImageWords() + after, 7, "/Height", FromNat(page.height));
    NumberReads(page.height);
  }

  lemma ColoursFound(page: Page, after: seq<string>)
    ensures ValueOf(page.ImageWords() + after, "/ColorSpace") == Some(page.ColorSpace())
  {
    NumberIsNoKey(page.width, "/ColorSpace");
    NumberIsNoKey(page.height, "/ColorSpace");
    ValueAt(page.ImageWords() + after, 9, "/ColorSpace", page.ColorSpace());
  }

  lemma SubtypeFound(page: Page, after: seq<string>)
    ensures ValueOf(page.ImageWords() + after, "/Subtype") == Some("/Image")
  {
    ValueAt(page.ImageWords() + after, 3, "/Subtype", "/Image");
  }

  lemma TypeFound(page: Page, after: seq<string>)
    ensures ValueOf(page.ImageWords() + after, "/Type") == Some("/XObject")
  {
    ValueAt(page.ImageWords() + after, 1, "/Type", "/XObject");
  }

  lemma BitsFound(page: Page, after: seq<string>)
    ensures NumberOf(page.ImageWords() + after, "/BitsPerComponent") == Some(8)
  {
    NumberIsNoKey(page.width, "/BitsPerComponent");
    NumberIsNoKey(page.height, "/BitsPerComponent");
    ValueAt(page.ImageWords() + after, 11, "/BitsPerComponent", "8");
    OneDigit('8');
  }

  lemma FilterFound(page: Page, after: seq<string>)
    ensures ValueOf(page.ImageWords() + after, "/Filter") == Some("/DCTDecode")
  {
    NumberIsNoKey(page.width, "/Filter");
    NumberIsNoKey(page.height, "/Filter");
    ValueAt(page.ImageWords() + after, 13, "/Filter", "/DCTDecode");
  }

  lemma ImageDictSplits(page: Page, tail: string)
    ensures Split(page.ImageKeys() + tail, ' ') == page.ImageWords() + Split(tail, ' ')
  {
    var front := Words(page.ImageWords());
    assert page.ImageKeys() + tail == front + [' '] + tail;
    SplitAcross(front, tail, ' ');
    ImageWordsSolid(page);
    WordsRead(page.ImageWords());
  }

  lemma MediaBoxReads(page: Page)
    ensures MediaBox(page.PageWords()) == Some((page.width, page.height))
  {
    var ws := page.PageWords();
    FindAt(ws, "/MediaBox", 7);
    assert ws[8..12] == page.Box();
    BoxReads(page);
  }

  lemma BoxReads(page: Page)
    ensures BoxIn(page.Box()) == Some((page.width, page.height))
  {
    var last := FromNat(page.height) + "]";
    assert last[..|last| - 1] == FromNat(page.height);
    NumberReads(page.width);
    NumberReads(page.height);
  }

  lemma DrawnSidesRead(page: Page)
    ensures DrawnSides(page.Content()) == Some((page.width, page.height))
  {
    var lines := ["q", Words(page.Matrix()), "/Im0 Do", "Q"];
    MatrixSolid(page);
    JoinOneLine(page.Matrix());
    WordsRead(page.Matrix());
    SplitLines(lines);
    DrawingFound(Words(page.Matrix()));
    ScalesRead(page);
  }

  lemma DrawingFound(matrix: string)
    ensures var lines := ["q", matrix, "/Im0 Do", "Q"] + [""];
      |lines| >= 3 && lines[0] == "q" && lines[1] == matrix && lines[2] == "/Im0 Do"
  {
  }

  lemma ScalesRead(page: Page)
    ensures Scales(page.Matrix()) == Some((page.width, page.height))
  {
    var m := page.Matrix();
    assert m[1..3] == ["0", "0"] && m[4..] == ["0", "0", "cm"];
    NumberReads(page.width);
    NumberReads(page.height);
  }

  lemma DictFound(pdf: string, k: nat, n: nat, body: string, dict: string, rest: string)
    requires At(pdf, k, Object(n, body)) && '\n' !in dict && body + "\nendobj\n" == dict + ['\n'] + rest
    ensures DictAt(pdf, k) == Some(dict)
  {
    var head, tail := FromNat(n) + " 0 obj", pdf[k + |Object(n, body)|..];
    AtSlice(pdf, k, Object(n, body));
    assert pdf[k..] == head + ['\n'] + (dict + ['\n'] + (rest + tail)) by {
      ConcatAssoc(head + ['\n'], dict + ['\n'] + rest, tail);
      ConcatAssoc(dict + ['\n'], rest, tail);
    }
    SplitOnceAt(head, dict + ['\n'] + (rest + tail), '\n');
    SplitOnceAt(dict, rest + tail, '\n');
  }

  lemma LineAlone(dict: string)
    ensures dict + "\nendobj\n" == dict + ['\n'] + "endobj\n"
  {
  }

  lemma LineOfStream(keys: string, data: string, end: string)
    ensures var dict := keys + ("/Length" + [' '] + FromNat(|data|) + " >>");
      Streamed(keys, data, end) + "\nendobj\n" == dict + ['\n'] + ("stream" + ['\n'] + (data + end) + "\nendobj\n")
  {
    var more := "stream" + ['\n'] + (data + end);
    var n := FromNat(|data|);
    ConcatAssoc(keys, "/Length", [' ']);
    ConcatAssoc(keys, "/Length" + [' '], n);
    ConcatAssoc(keys, "/Length" + [' '] + n, " >>");
    var dict := keys + ("/Length" + [' '] + n + " >>");
    assert Streamed(keys, data, end) == dict + ['\n'] + more;
    ConcatAssoc(dict + ['\n'], more, "\nendobj\n");
  }

  // What a reader relies on: startxref names the table, each of its entries the
  // line that opens that object, and a stream's Length is its size in bytes.
  ghost predicate Readable(doc: string, jpeg: string, content: string) {
    && XrefStart(doc).Some? && At(doc, XrefStart(doc).value, "xref\n")
    && (forall n {:trigger EntryOffset(doc, n)} :: 0 < n <= 5 ==>
          EntryOffset(doc, n).Some? && At(doc, EntryOffset(doc, n).value, FromNat(n) + " 0 obj\n"))
    && ReadStream(doc, EntryOffset(doc, 4).value) == Some(jpeg)
    && ReadStream(doc, EntryOffset(doc, 5).value) == Some(content)
  }

  // The words of object n's dictionary.
  function WordsOf(doc: string, n: nat): seq<string> {
    match EntryOffset(doc, n)
    case None => []
    case Some(k) =>
      match DictAt(doc, k)
      case None => []
      case Some(dict) => Split(dict, ' ')
  }

  // The object the trailer names as the root.
  function Root(doc: string): Option<nat> {
    RootIn(Split(doc, '\n'))
  }

  // If it also counts the table's six entries.
  function RootIn(l: seq<string>): Option<nat> {
    if |l| < 6 || l[|l| - 6] != "trailer" || NumberOf(Split(l[|l| - 5], ' '), "/Size") != Some(6) then None
    else NumberOf(Split(l[|l| - 5], ' '), "/Root")
  }

  predicate IsDict(words: seq<string>, kind: string) {
    |words| >= 2 && words[0] == "<<" && words[|words| - 1] == ">>" && ValueOf(words, "/Type") == Some(kind)
  }

  // From the root to the page's image and drawing, object by object.
  predicate Linked(root: Option<nat>, catalog: seq<string>, pages: seq<string>, page: seq<string>) {
    && IsDict(catalog, "/Catalog") && IsDict(pages, "/Pages") && IsDict(page, "/Page")
    && root == Some(1) && NumberOf(catalog, "/Pages") == Some(2)
    && ValueOf(pages, "/Kids") == Some("[3") && NumberOf(pages, "/Count") == Some(1)
    && NumberOf(page, "/Parent") == Some(2) && NumberOf(page, "/Im0") == Some(4) && NumberOf(page, "/Contents") == Some(5)
  }

  // And of the page: its box, the matrix its image is drawn by, and the image's
  // dictionary all give its sides, and the dictionary its colours.
  predicate ShowsPage(dict: seq<string>, image: seq<string>, content: string, page: Page) {
    && ValueOf(image, "/Type") == Some("/XObject")
    && MediaBox(dict) == Some((page.width, page.height)) && DrawnSides(content) == Some((page.width, page.height))
    && NumberOf(image, "/Width") == Some(page.width) && NumberOf(image, "/Height") == Some(page.height)
    && ValueOf(image, "/Subtype") == Some("/Image") && NumberOf(image, "/BitsPerComponent") == Some(8)
    && ValueOf(image, "/Filter") == Some("/DCTDecode")
    && ValueOf(image, "/ColorSpace") == Some(if page.gray then "/DeviceGray" else "/DeviceRGB")
  }

  lemma ObjectCloses(n: nat, body: string)
    ensures Object(n, body) == FromNat(n) + " 0 obj" + ['\n'] + body + "\nendobj\n"
  {
    ConcatAssoc(FromNat(n) + " 0 obj" + ['\n'], body, "\nendobj\n");
  }

  lemma PrefixCloses(bodies: seq<string>, n: nat) returns (before: string)
    requires 0 < n <= |bodies|
    ensures Prefix(bodies, n) == before + "\nendobj\n"
  {
    var open := FromNat(n) + " 0 obj" + ['\n'] + bodies[n - 1];
    before := Prefix(bodies, n - 1) + open;
    ObjectCloses(n, bodies[n - 1]);
    ConcatAssoc(Prefix(bodies, n - 1), open, "\nendobj\n");
  }

  // Object n runs up to the next one, or the table, and ends with its keyword.
  lemma ObjectEnds(bodies: seq<string>, n: nat)
    requires 0 < n <= |bodies|
    ensures var end := if n < |bodies| then Offset(bodies, n + 1) else |Prefix(bodies, |bodies|)|;
      8 <= end && At(Document(bodies), end - 8, "\nendobj\n")
  {
    var before := PrefixCloses(bodies, n);
    PrefixInside(bodies, n, |bodies|);
    PrefixAt(Document(bodies), before, "\nendobj\n");
    EightCharacters();
  }

  lemma EightCharacters()
    ensures |"\nendobj\n"| == 8
  {
  }

  lemma HeaderFirst(bodies: seq<string>)
    ensures "%PDF-1.4\n" <= Document(bodies)
  {
    assert "%PDF-1.4\n" <= HEADER;
    PrefixInside(bodies, 0, |bodies|);
  }

  lemma DocumentReadable(bodies: seq<string>, keys: string, jpeg: string, start: string, content: string)
    requires |bodies| == 5 && '\n' !in keys && '\n' !in start
    requires bodies[3] == Streamed(keys, jpeg, "\nendstream") && bodies[4] == Streamed(start, content, "endstream")
    ensures Readable(Document(bodies), jpeg, content)
  {
    XrefStartReads(bodies);
    TableAt(bodies);
    forall n: nat | 0 < n <= 5
      ensures EntryOffset(Document(bodies), n) == Some(Offset(bodies, n))
      ensures At(Document(bodies), Offset(bodies, n), FromNat(n) + " 0 obj\n")
    {
      EntryFinds(bodies, n);
      EntryNames(bodies, n);
    }
    StreamBodyReads(bodies, 4, keys, jpeg, "\nendstream");
    StreamBodyReads(bodies, 5, start, content, "endstream");
  }

  lemma BodyWordsFound(bodies: seq<string>, n: nat, dict: string, rest: string)
    requires 0 < n <= |bodies| && '\n' !in dict && bodies[n - 1] + "\nendobj\n" == dict + ['\n'] + rest
    ensures WordsOf(Document(bodies), n) == Split(dict, ' ')
  {
    EntryFinds(bodies, n);
    DictFound(Document(bodies), Offset(bodies, n), n, bodies[n - 1], dict, rest);
  }

  // An object that is one dictionary.
  lemma PlainWordsFound(bodies: seq<string>, n: nat, words: seq<string>)
    requires 0 < n <= |bodies| && |words| >= 1 && Solid(words) && bodies[n - 1] == Words(words)
    ensures WordsOf(Document(bodies), n) == words
  {
    JoinOneLine(words);
    WordsRead(words);
    LineAlone(Words(words));
    BodyWordsFound(bodies, n, Words(words), "endobj\n");
  }

  lemma ImageWordsFound(page: Page) returns (after: seq<string>)
    ensures WordsOf(Document(page.Bodies()), 4) == page.ImageWords() + after
  {
    var tail := "/Length" + [' '] + FromNat(|page.jpeg|) + " >>";
    after := Split(tail, ' ');
    ImageKeysOneLine(page);
    assert '\n' !in tail;
    LineOfStream(page.ImageKeys(), page.jpeg, "\nendstream");
    BodyWordsFound(page.Bodies(), 4, page.ImageKeys() + tail,
                   "stream" + ['\n'] + (page.jpeg + "\nendstream") + "\nendobj\n");
    ImageDictSplits(page, tail);
  }

  lemma ImageKeysOneLine(page: Page)
    ensures '\n' !in page.ImageKeys()
  {
    ImageWordsSolid(page);
    JoinOneLine(page.ImageWords());
  }

  lemma RootReads(bodies: seq<string>)
    ensures Root(Document(bodies)) == Some(1)
  {
    var before := DocumentEnds(bodies);
    RootFound(before, |Prefix(bodies, |bodies|)|);
  }

  lemma RootFound(a: seq<string>, x: nat)
    ensures RootIn(a + (Trailer(x) + [""])) == Some(1)
  {
    var l := a + (Trailer(x) + [""]);
    assert l[|l| - 6] == "trailer" && l[|l| - 5] == Words(TRAILER);
    TrailerSolid();
    WordsRead(TRAILER);
    TrailerRoot();
  }

  lemma TrailerRoot()
    ensures NumberOf(TRAILER, "/Size") == Some(6)
    ensures NumberOf(TRAILER, "/Root") == Some(1)
  {
    ValueAt(TRAILER, 1, "/Size", "6");
    ValueAt(TRAILER, 3, "/Root", "1");
    OneDigit('6');
    OneDigit('1');
  }

  lemma OneDigit(c: char)
    requires IsDigit(c)
    ensures ReadNumber([c]) == Some(DigitValue(c))
  {
    assert "" + [c] == [c];
    ToNatSnoc("", c);
  }

  lemma CatalogTyped()
    ensures IsDict(CATALOG, "/Catalog")
  {
    ValueAt(CATALOG, 1, "/Type", "/Catalog");
  }

  lemma PagesTyped()
    ensures IsDict(PAGES, "/Pages")
  {
    ValueAt(PAGES, 1, "/Type", "/Pages");
  }

  lemma PageTyped(page: Page)
    ensures IsDict(page.PageWords(), "/Page")
  {
    var ws := page.PageWords();
    assert ws[..3] == ["<<", "/Type", "/Page"];
    ValueAt(ws, 1, "/Type", "/Page");
  }

  lemma CatalogLinks()
    ensures NumberOf(CATALOG, "/Pages") == Some(2)
  {
    ValueAt(CATALOG, 3, "/Pages", "2");
    OneDigit('2');
  }

  lemma KidsLink()
    ensures ValueOf(PAGES, "/Kids") == Some("[3")
  {
    ValueAt(PAGES, 3, "/Kids", "[3");
  }

  lemma CountLink()
    ensures NumberOf(PAGES, "/Count") == Some(1)
  {
    ValueAt(PAGES, 7, "/Count", "1");
    OneDigit('1');
  }

  lemma BoxIsNoKey(page: Page, key: string)
    requires key != "" && !IsDigit(key[0]) && key[0] != '['
    ensures key !in page.Box()
  {
  }

  // The value of a key in the page's dictionary after its box.
  lemma TailValue(page: Page, i: nat, key: string, value: string)
    requires i + 1 < |PAGE_TAIL| && PAGE_TAIL[i] == key && PAGE_TAIL[i + 1] == value
    requires forall j :: 0 <= j < |PAGE_HEAD| ==> PAGE_HEAD[j] != key
    requires forall j :: 0 <= j < i ==> PAGE_TAIL[j] != key
    requires key != "" && !IsDigit(key[0]) && key[0] != '['
    ensures ValueOf(page.PageWords(), key) == Some(value)
  {
    BoxIsNoKey(page, key);
    Inserted(PAGE_HEAD, page.Box(), PAGE_TAIL, i, key, value);
  }

  lemma Inserted(a: seq<string>, b: seq<string>, c: seq<string>, i: nat, key: string, value: string)
    requires i + 1 < |c| && c[i] == key && c[i + 1] == value && key !in b
    requires forall j :: 0 <= j < |a| ==> a[j] != key
    requires forall j :: 0 <= j < i ==> c[j] != key
    ensures ValueOf(a + (b + c), key) == Some(value)
  {
    ValueAt(a + (b + c), |a| + |b| + i, key, value);
  }

  lemma ParentLink(page: Page)
    ensures NumberOf(page.PageWords(), "/Parent") == Some(2)
  {
    var ws := page.PageWords();
    assert ws[..5] == PAGE_HEAD[..5];
    ValueAt(ws, 3, "/Parent", "2");
    OneDigit('2');
  }

  lemma ImageLink(page: Page)
    ensures NumberOf(page.PageWords(), "/Im0") == Some(4)
  {
    TailValue(page, 4, "/Im0", "4");
    OneDigit('4');
  }

  lemma ContentsLink(page: Page)
    ensures NumberOf(page.PageWords(), "/Contents") == Some(5)
  {
    TailValue(page, 10, "/Contents", "5");
    OneDigit('5');
  }

  // That holds for every page and every JPEG.
  lemma CrossReferencesAreExact(page: Page)
    ensures "%PDF-1.4\n" <= Document(page.Bodies())
    ensures Readable(Document(page.Bodies()), page.jpeg, page.Content())
  {
    HeaderFirst(page.Bodies());
    ImageKeysOneLine(page);
    DocumentReadable(page.Bodies(), page.ImageKeys(), page.jpeg, "<< ", page.Content());
  }

  // And following the references from the root leads to the page, its image and
  // its drawing, whose sides and colours are the page's.
  lemma PageReads(page: Page)
    ensures var doc := Document(page.Bodies());
      && Linked(Root(doc), WordsOf(doc, 1), WordsOf(doc, 2), WordsOf(doc, 3))
      && ShowsPage(WordsOf(doc, 3), WordsOf(doc, 4), page.Content(), page)
  {
    DictsFound(page);
    RootReads(page.Bodies());
    CatalogTyped();
    PagesTyped();
    PageTyped(page);
    CatalogLinks();
    KidsLink();
    CountLink();
    ParentLink(page);
    ImageLink(page);
    ContentsLink(page);
    MediaBoxReads(page);
    DrawnSidesRead(page);
    var after := ImageWordsFound(page);
    WidthFound(page, after);
    HeightFound(page, after);
    ColoursFound(page, after);
    TypeFound(page, after);
    SubtypeFound(page, after);
    BitsFound(page, after);
    FilterFound(page, after);
  }

  lemma DictsFound(page: Page)
    ensures var doc := Document(page.Bodies());
      WordsOf(doc, 1) == CATALOG && WordsOf(doc, 2) == PAGES && WordsOf(doc, 3) == page.PageWords()
  {
    var bodies := page.Bodies();
    CatalogSolid();
    PageWordsSolid(page);
    assert bodies[0] == Words(CATALOG) && bodies[1] == Words(PAGES) && bodies[2] == Words(page.PageWords());
    DictsAre(bodies, CATALOG, PAGES, page.PageWords());
  }

  lemma DictsAre(bodies: seq<string>, a: seq<string>, b: seq<string>, c: seq<string>)
    requires |bodies| == 5 && |a| >= 1 && |b| >= 1 && |c| >= 1 && Solid(a) && Solid(b) && Solid(c)
    requires bodies[0] == Words(a) && bodies[1] == Words(b) && bodies[2] == Words(c)
    ensures WordsOf(Document(bodies), 1) == a && WordsOf(Document(bodies), 2) == b && WordsOf(Document(bodies), 3) == c
  {
    PlainWordsFound(bodies, 1, a);
    PlainWordsFound(bodies, 2, b);
    PlainWordsFound(bodies, 3, c);
  }
}
