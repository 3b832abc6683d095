/**
 Instance rows from a predictions file (src/olmo_eval/upload/extract.py): line offsets
 that address the right bytes, one row with its own key per non-blank line, and batches.
 */
module Extract {
  import opened Collections
  import opened NativeIds

  newtype byte = x: int | 0 <= x < 256

  const LF: byte := 10
  const CR: byte := 13
  const BATCH_SIZE: nat := 2000
  const INT32_MAX: nat := 0x7FFF_FFFF
  const PREVIEW_CHARS := 300

  type Bytes = seq<byte>

  // ------------------------------------------------------------------ lines

  /** The lines of a file, each with its newline, as reading the file yields them. */
  function Lines(file: Bytes): seq<Bytes> {
    if file == [] then []
    else
      var before, b := Lines(file[..|file| - 1]), file[|file| - 1];
      if before == [] || Ended(before[|before| - 1]) then before + [[b]]
      else before[..|before| - 1] + [before[|before| - 1] + [b]]
  }

  predicate Ended(line: Bytes) {
    line != [] && line[|line| - 1] == LF
  }

  function Concat(lines: seq<Bytes>): Bytes {
    if lines == [] then [] else Concat(lines[..|lines| - 1]) + lines[|lines| - 1]
  }

  /** Lines concatenate back to the file. */
  lemma {:induction false} LinesConcat(file: Bytes)
    ensures Concat(Lines(file)) == file
  {
    if file != [] {
      var before, after := Lines(file[..|file| - 1]), Lines(file);
      LinesConcat(file[..|file| - 1]);
      assert file == file[..|file| - 1] + [file[|file| - 1]];
      if before == [] || Ended(before[|before| - 1]) {
        assert after[..|after| - 1] == before;
      } else {
        assert after[..|after| - 1] == before[..|before| - 1];
      }
    }
  }

  /** A line is not empty, and has no newline but the one that may end it. */
  predicate OneLine(line: Bytes) {
    line != [] && forall i :: 0 <= i < |line| - 1 ==> line[i] != LF
  }

  /** Every line is one line, and all but the last end with a newline. */
  lemma {:induction false} LinesAreLines(file: Bytes)
    ensures forall k {:trigger Lines(file)[k]} :: 0 <= k < |Lines(file)| ==> OneLine(Lines(file)[k])
    ensures forall k {:trigger Lines(file)[k]} :: 0 <= k < |Lines(file)| - 1 ==> Ended(Lines(file)[k])
  {
    if file != [] {
      var before, after := Lines(file[..|file| - 1]), Lines(file);
      LinesAreLines(file[..|file| - 1]);
      assert OneLine([file[|file| - 1]]);
      if before != [] && !Ended(before[|before| - 1]) {
        assert OneLine(before[|before| - 1] + [file[|file| - 1]]);
      }
    }
  }

  predicate IsSpace(b: byte) {
    b == 32 || 9 <= b <= 13
  }

  /** line.strip() is empty. */
  predicate Blank(line: Bytes) {
    forall i :: 0 <= i < |line| ==> IsSpace(line[i])
  }

  /** What is left of a line: all but LF or CR LF if it ends in LF, and all of it otherwise. */
  predicate WithoutEnding(line: Bytes, content: Bytes) {
    if !Ended(line) then content == line
    else if |line| >= 2 && line[|line| - 2] == CR then content + [CR, LF] == line
    else content + [LF] == line
  }

  /** The length of a line without its line ending. */
  function LineLength(line: Bytes): (n: nat)
    ensures n <= |line| && WithoutEnding(line, line[..n])
  {
    if |line| >= 2 && line[|line| - 2] == CR && line[|line| - 1] == LF then |line| - 2
    else if |line| >= 1 && line[|line| - 1] == LF then |line| - 1
    else |line|
  }

  datatype Piece = Piece(offset: nat, line: Bytes)

  /** The non-blank lines among the first lines of a file, with the offset where each begins. */
  function Pieces(lines: seq<Bytes>): seq<Piece> {
    if lines == [] then []
    else
      var front, last := lines[..|lines| - 1], lines[|lines| - 1];
      if Blank(last) then Pieces(front) else Pieces(front) + [Piece(|Concat(front)|, last)]
  }

  /** One more line. */
  lemma PiecesNext(lines: seq<Bytes>, n: nat)
    requires n < |lines|
    ensures |Concat(lines[..n + 1])| == |Concat(lines[..n])| + |lines[n]|
    ensures Pieces(lines[..n + 1]) ==
      if Blank(lines[n]) then Pieces(lines[..n]) else Pieces(lines[..n]) + [Piece(|Concat(lines[..n])|, lines[n])]
  {
    assert lines[..n + 1][..n] == lines[..n];
  }

  /** Each piece is its slice of the file, and the slices follow one another without overlap. */
  lemma {:induction false} PiecesAreSlices(lines: seq<Bytes>)
    ensures forall k {:trigger Pieces(lines)[k]} :: 0 <= k < |Pieces(lines)| ==>
      && Pieces(lines)[k].offset + |Pieces(lines)[k].line| <= |Concat(lines)|
      && Concat(lines)[Pieces(lines)[k].offset..][..|Pieces(lines)[k].line|] == Pieces(lines)[k].line
    ensures forall j, k {:trigger Pieces(lines)[j], Pieces(lines)[k]} :: 0 <= j < k < |Pieces(lines)| ==>
      Pieces(lines)[j].offset + |Pieces(lines)[j].line| <= Pieces(lines)[k].offset
  {
    if lines != [] {
      var front, last := lines[..|lines| - 1], lines[|lines| - 1];
      PiecesAreSlices(front);
      forall k | 0 <= k < |Pieces(front)|
        ensures Concat(lines)[Pieces(front)[k].offset..][..|Pieces(front)[k].line|] == Pieces(front)[k].line
      {
        var p := Pieces(front)[k];
        assert Concat(lines)[p.offset..][..|p.line|] == Concat(front)[p.offset..][..|p.line|];
      }
      assert Concat(lines)[|Concat(front)|..][..|last|] == last;
    }
  }

  /** The piece that line i would be. */
  function PieceAt(lines: seq<Bytes>, i: nat): Piece
    requires i < |lines|
  {
    Piece(|Concat(lines[..i])|, lines[i])
  }

  /** A byte of the line is not white space. */
  predicate HasText(line: Bytes) {
    exists j :: 0 <= j < |line| && line[j] !in {9, 10, 11, 12, 13, 32}
  }

  ghost predicate PiecesAt(lines: seq<Bytes>, pieces: seq<Piece>, at: seq<nat>) {
    && Rising(at) && |at| == |pieces|
    && forall k :: 0 <= k < |at| ==> at[k] < |lines| && pieces[k] == PieceAt(lines, at[k])
  }

  ghost predicate TextAt(lines: seq<Bytes>, at: seq<nat>) {
    forall i :: 0 <= i < |lines| ==> (i in at <==> HasText(lines[i]))
  }

  /** Exactly the lines with a byte that is not white space are pieces, in order, each where the ones before it end. */
  lemma {:induction false} PiecesAre(lines: seq<Bytes>)
    ensures exists at: seq<nat> :: PiecesAt(lines, Pieces(lines), at) && TextAt(lines, at)
  {
    hide Pieces, PiecesAt, TextAt, HasText, Concat;
    if lines == [] {
      NoLinesNoPieces();
    } else {
      var front, last := lines[..|lines| - 1], lines[|lines| - 1];
      PiecesAre(front);
      var at: seq<nat> :| PiecesAt(front, Pieces(front), at) && TextAt(front, at);
      assert lines == front + [last] && lines[..|front|] == front && lines[..|front| + 1] == lines;
      PiecesNext(lines, |front|);
      PieceMore(front, Pieces(front), at, last);
      PlacedBefore(front, Pieces(front), at);
      TextMore(front, at, last);
    }
  }

  lemma NoLinesNoPieces()
    ensures var at: seq<nat> := []; PiecesAt([], Pieces([]), at) && TextAt([], at)
  {
  }

  lemma PieceMore(lines: seq<Bytes>, pieces: seq<Piece>, at: seq<nat>, line: Bytes)
    requires PiecesAt(lines, pieces, at)
    ensures PiecesAt(lines + [line], pieces, at)
    ensures PiecesAt(lines + [line], pieces + [Piece(|Concat(lines)|, line)], at + [|lines|])
  {
    hide Concat, PieceAt, Rising;
    var more := lines + [line];
    RisingMore(at, |lines|);
    forall i | 0 <= i < |lines| ensures PieceAt(more, i) == PieceAt(lines, i) {
      SamePiece(lines, line, i);
    }
    NewPiece(lines, line);
  }

  lemma SamePiece(lines: seq<Bytes>, line: Bytes, i: nat)
    requires i < |lines|
    ensures PieceAt(lines + [line], i) == PieceAt(lines, i)
  {
    hide Concat;
    assert (lines + [line])[..i] == lines[..i];
  }

  lemma NewPiece(lines: seq<Bytes>, line: Bytes)
    ensures PieceAt(lines + [line], |lines|) == Piece(|Concat(lines)|, line)
  {
    hide Concat;
    assert (lines + [line])[..|lines|] == lines;
  }

  lemma RisingMore(at: seq<nat>, x: nat)
    requires Rising(at) && forall k :: 0 <= k < |at| ==> at[k] < x
    ensures Rising(at + [x])
  {
  }

  lemma TextMore(lines: seq<Bytes>, at: seq<nat>, line: Bytes)
    requires TextAt(lines, at) && forall k :: 0 <= k < |at| ==> at[k] < |lines|
    ensures TextAt(lines + [line], if Blank(line) then at else at + [|lines|])
  {
    hide HasText, Blank;
    BlankIs(line);
    var more, at' := lines + [line], if Blank(line) then at else at + [|lines|];
    forall i | 0 <= i < |more| ensures i in at' <==> HasText(more[i]) {
      if i < |lines| {
        assert more[i] == lines[i] && (i in at' <==> i in at);
      } else {
        assert more[i] == line && i !in at;
      }
    }
  }

  lemma PlacedBefore(lines: seq<Bytes>, pieces: seq<Piece>, at: seq<nat>)
    requires PiecesAt(lines, pieces, at)
    ensures forall k :: 0 <= k < |at| ==> at[k] < |lines|
  {
    hide PieceAt, Rising;
  }

  lemma BlankIs(line: Bytes)
    ensures Blank(line) <==> !HasText(line)
  {
  }

  /** count_instances */
  method CountInstances(file: Bytes) returns (count: nat)
    ensures count == |Pieces(Lines(file))|
  {
    var lines := Lines(file);
    count := 0;
    for k := 0 to |lines|
      invariant count == |Pieces(lines[..k])|
    {
      PiecesNext(lines, k);
      if !Blank(lines[k]) {
        count := count + 1;
      }
    }
    assert lines[..|lines|] == lines;
  }

  // ------------------------------------------------------------------ rows

  /** What a row takes from a line that parses to a JSON object. */
  datatype Rec = Rec(nativeId: Option<string>, docId: Option<DocId>, preview: Option<string>)

  /** A doc id as text, and as a number when it is an integer. */
  datatype DocId = DocId(text: string, number: Option<int>)

  datatype RequestRef = RequestRef(offset: nat, length: nat, preview: Option<string>)

  /** What a row keeps of its request line. */
  datatype RowRequest = RowRequest(offset: nat, length: Option<nat>, preview: Option<string>)

  datatype Row = Row(
    nativeId: string,
    predOffset: nat,
    predLength: Option<nat>,
    request: Option<RowRequest>)

  /** Lengths past the largest signed 32-bit integer are dropped. */
  function Int32(n: nat): Option<nat> {
    if n <= INT32_MAX then Some(n) else None
  }

  /** The request part of a row: an empty preview is none, and a long one is cut. */
  function RequestPart(ref: Option<RequestRef>): Option<RowRequest> {
    if ref.None? then None
    else
      var preview := ref.value.preview;
      Some(RowRequest(ref.value.offset, Int32(ref.value.length),
        if preview.None? || preview.value == "" then None else Some(Cut(preview.value, PREVIEW_CHARS))))
  }

  /** The id a row asks for before it is cut and made unique; `number` counts non-blank lines from 1. */
  function Original(rec: Rec, number: nat): string {
    if rec.nativeId.Some? then rec.nativeId.value
    else if rec.docId.Some? then "doc_" + rec.docId.value.text
    else "line_" + Numeral(number)
  }

  function Base(rec: Rec, number: nat): (base: string)
    ensures 1 <= |base|
  {
    var cut := Cut(Original(rec, number), MAX_NATIVE_ID);
    if cut == "" then "line_" + Numeral(number) else cut
  }

  // ------------------------------------------------------------------ the requests file

  function RefTo(p: Piece, rec: Rec): RequestRef {
    RequestRef(p.offset, LineLength(p.line), rec.preview)
  }

  /** The ids a line can be found by. */
  datatype Key = Native(id: string) | Doc(number: int)

  predicate HasKey(rec: Option<Rec>, key: Key) {
    rec.Some? &&
    match key
    case Native(id) => rec.value.nativeId == Some(id)
    case Doc(number) => rec.value.docId.Some? && rec.value.docId.value.number == Some(number)
  }

  /** The first line that has this key. */
  function Find(pieces: seq<Piece>, parse: Bytes -> Option<Rec>, key: Key): Option<RequestRef> {
    if pieces == [] then None
    else
      FirstOr(Find(pieces[..|pieces| - 1], parse, key), pieces[|pieces| - 1], parse, key)
  }

  /** The line found before, if any, else this one if it has the key. */
  function FirstOr(before: Option<RequestRef>, p: Piece, parse: Bytes -> Option<Rec>, key: Key): Option<RequestRef> {
    if before.None? && HasKey(parse(p.line), key) then Some(RefTo(p, parse(p.line).value)) else before
  }

  lemma {:induction false} FindIsFirst(pieces: seq<Piece>, parse: Bytes -> Option<Rec>, key: Key)
    ensures
      match Find(pieces, parse, key)
      case None => forall k :: 0 <= k < |pieces| ==> !HasKey(parse(pieces[k].line), key)
      case Some(ref) =>
        (exists k :: 0 <= k < |pieces| && HasKey(parse(pieces[k].line), key)
           && ref == RefTo(pieces[k], parse(pieces[k].line).value)
           && forall j :: 0 <= j < k ==> !HasKey(parse(pieces[j].line), key))
  {
    if pieces != [] {
      var front := pieces[..|pieces| - 1];
      FindIsFirst(front, parse, key);
      if Find(front, parse, key).Some? {
        var k :| 0 <= k < |front| && HasKey(parse(front[k].line), key)
          && Find(front, parse, key).value == RefTo(front[k], parse(front[k].line).value)
          && forall j :: 0 <= j < k ==> !HasKey(parse(front[j].line), key);
        assert pieces[k] == front[k];
        assert forall j :: 0 <= j < k ==> front[j] == pieces[j];
      } else {
        assert forall j :: 0 <= j < |front| ==> front[j] == pieces[j];
      }
    }
  }

  /** The two dictionaries answer every lookup with the first line that has the key. */
  ghost predicate Indexed(
    pieces: seq<Piece>, parse: Bytes -> Option<Rec>, byNative: map<string, RequestRef>, byDoc: map<int, RequestRef>)
  {
    && (forall id :: Get(byNative, id) == Find(pieces, parse, Native(id)))
    && (forall number :: Get(byDoc, number) == Find(pieces, parse, Doc(number)))
  }

  lemma IndexedMore(
    pieces: seq<Piece>, p: Piece, parse: Bytes -> Option<Rec>,
    byNative: map<string, RequestRef>, byDoc: map<int, RequestRef>,
    byNative': map<string, RequestRef>, byDoc': map<int, RequestRef>)
    requires Indexed(pieces, parse, byNative, byDoc)
    requires forall id :: Get(byNative', id) == FirstOr(Get(byNative, id), p, parse, Native(id))
    requires forall number :: Get(byDoc', number) == FirstOr(Get(byDoc, number), p, parse, Doc(number))
    ensures Indexed(pieces + [p], parse, byNative', byDoc')
  {
    assert (pieces + [p])[..|pieces|] == pieces;
  }

  /** index_requests: the first line with an id wins. */
  method IndexRequests(file: Bytes, parse: Bytes -> Option<Rec>)
    returns (byNative: map<string, RequestRef>, byDoc: map<int, RequestRef>)
    ensures Indexed(Pieces(Lines(file)), parse, byNative, byDoc)
  {
    hide Indexed, Find, Pieces, Concat, Lines, Blank, LineLength;
    var lines := Lines(file);
    byNative, byDoc := map[], map[];
    var offset := 0;
    NoPieces(parse);
    assert lines[..0] == [];
    for n := 0 to |lines|
      invariant offset == |Concat(lines[..n])|
      invariant Indexed(Pieces(lines[..n]), parse, byNative, byDoc)
    {
      var line := lines[n];
      PiecesNext(lines, n);
      if !Blank(line) {
        ghost var byNative0, byDoc0 := byNative, byDoc;
        var rec := parse(line);
        if rec.Some? {
          var ref := RequestRef(offset, LineLength(line), rec.value.preview);
          var native, doc := rec.value.nativeId, rec.value.docId;
          if native.Some? && native.value !in byNative {
            byNative := byNative[native.value := ref];
          }
          if doc.Some? && doc.value.number.Some? && doc.value.number.value !in byDoc {
            byDoc := byDoc[doc.value.number.value := ref];
          }
        }
        IndexedMore(Pieces(lines[..n]), Piece(offset, line), parse, byNative0, byDoc0, byNative, byDoc);
      }
      offset := offset + |line|;
    }
    assert lines[..|lines|] == lines;
  }

  lemma NoPieces(parse: Bytes -> Option<Rec>)
    ensures Pieces([]) == [] && Concat([]) == [] && Indexed([], parse, map[], map[])
  {
  }

  // ------------------------------------------------------------------ a predictions file

  /** The request line of a record: by its uncut id, else by its integer doc id. */
  function RequestOf(rec: Rec, number: nat, requests: seq<Piece>, parse: Bytes -> Option<Rec>): Option<RequestRef> {
    var ref := Find(requests, parse, Native(Original(rec, number)));
    if ref.None? && rec.docId.Some? && rec.docId.value.number.Some?
    then Find(requests, parse, Doc(rec.docId.value.number.value))
    else ref
  }

  function RecOf(p: Piece, parse: Bytes -> Option<Rec>): Rec {
    parse(p.line).GetOr(Rec(None, None, None))
  }

  lemma RecIs(p: Piece, parse: Bytes -> Option<Rec>, rec: Rec)
    requires rec == if parse(p.line).Some? then parse(p.line).value else Rec(None, None, None)
    ensures RecOf(p, parse) == rec
  {
  }

  function Bases(pieces: seq<Piece>, parse: Bytes -> Option<Rec>): (bases: seq<string>)
    ensures |bases| == |pieces|
  {
    if pieces == [] then []
    else Bases(pieces[..|pieces| - 1], parse) + [Base(RecOf(pieces[|pieces| - 1], parse), |pieces|)]
  }

  /** The row addresses its line, and has this id and its own request line; `number` counts from 1. */
  ghost predicate RowFor(
    row: Row, id: string, p: Piece, number: nat, requests: seq<Piece>, parse: Bytes -> Option<Rec>)
  {
    && row.nativeId == id
    && row.predOffset == p.offset
    && row.predLength == Int32(LineLength(p.line))
    && row.request == RequestPart(RequestOf(RecOf(p, parse), number, requests, parse))
  }

  /** Row k is for non-blank line k, and has the unique id for its base. */
  ghost predicate RowsFor(rows: seq<Row>, pieces: seq<Piece>, requests: seq<Piece>, parse: Bytes -> Option<Rec>) {
    && |rows| == |pieces|
    && forall k {:trigger rows[k]} :: 0 <= k < |rows| ==>
         RowFor(rows[k], Ids(Bases(pieces, parse))[k], pieces[k], k + 1, requests, parse)
  }

  lemma NoLines()
    ensures Lines([]) == []
  {
  }

  lemma NoRows(requests: seq<Piece>, parse: Bytes -> Option<Rec>)
    ensures RowsFor([], [], requests, parse) && Ids(Bases([], parse)) == []
  {
  }

  lemma RequestLookup(
    requests: seq<Piece>, parse: Bytes -> Option<Rec>, byNative: map<string, RequestRef>, byDoc: map<int, RequestRef>,
    rec: Rec, number: nat)
    requires Indexed(requests, parse, byNative, byDoc)
    ensures RequestOf(rec, number, requests, parse) ==
      var ref := Get(byNative, Original(rec, number));
      if ref.None? && rec.docId.Some? && rec.docId.value.number.Some? then Get(byDoc, rec.docId.value.number.value)
      else ref
  {
  }

  lemma NextRow(
    rows: seq<Row>, pieces: seq<Piece>, p: Piece, requests: seq<Piece>, parse: Bytes -> Option<Rec>, row: Row)
    requires RowsFor(rows, pieces, requests, parse)
    requires
      var rec, before := RecOf(p, parse), Ids(Bases(pieces, parse));
      var base := Base(rec, |pieces| + 1);
      && row.nativeId == Candidate(base, LeastFree(base, SetOf(before)))
      && row.predOffset == p.offset && row.predLength == Int32(LineLength(p.line))
      && row.request == RequestPart(RequestOf(rec, |pieces| + 1, requests, parse))
    ensures RowsFor(rows + [row], pieces + [p], requests, parse)
    ensures SetOf(Ids(Bases(pieces + [p], parse))) == SetOf(Ids(Bases(pieces, parse))) + {row.nativeId}
  {
    hide RecOf, RequestOf, RequestPart, LineLength, Ids, Bases, Candidate, LeastFree, Base, SetOf;
    NextId(pieces, p, parse);
    SetOfMore(Ids(Bases(pieces, parse)), row.nativeId);
    AppendRow(rows, pieces, p, requests, parse, row, Ids(Bases(pieces, parse)), Ids(Bases(pieces + [p], parse)));
  }

  lemma AppendRow(
    rows: seq<Row>, pieces: seq<Piece>, p: Piece, requests: seq<Piece>, parse: Bytes -> Option<Rec>, row: Row,
    ids: seq<string>, ids': seq<string>)
    requires RowsFor(rows, pieces, requests, parse) && RowFor(row, row.nativeId, p, |pieces| + 1, requests, parse)
    requires ids == Ids(Bases(pieces, parse)) && ids' == Ids(Bases(pieces + [p], parse)) == ids + [row.nativeId]
    ensures RowsFor(rows + [row], pieces + [p], requests, parse)
  {
    hide RowFor, Ids, Bases;
    var rows', pieces' := rows + [row], pieces + [p];
    forall k | 0 <= k < |rows'| ensures RowFor(rows'[k], ids'[k], pieces'[k], k + 1, requests, parse) {
      if k < |rows| {
        assert rows'[k] == rows[k] && pieces'[k] == pieces[k] && ids'[k] == ids[k];
      }
    }
  }

  lemma NextId(pieces: seq<Piece>, p: Piece, parse: Bytes -> Option<Rec>)
    ensures
      var before, base := Ids(Bases(pieces, parse)), Base(RecOf(p, parse), |pieces| + 1);
      Ids(Bases(pieces + [p], parse)) == before + [Candidate(base, LeastFree(base, SetOf(before)))]
  {
    hide RecOf, Candidate, LeastFree, Base, SetOf;
    var more := pieces + [p];
    assert more[..|pieces|] == pieces;
    assert Bases(more, parse)[..|pieces|] == Bases(pieces, parse);
  }

  lemma SetOfMore(ids: seq<string>, id: string)
    ensures SetOf(ids + [id]) == SetOf(ids) + {id}
  {
  }

  /** iter_instances, as the sequence it yields; without a requests file nothing is indexed. */
  method IterInstances(predictions: Bytes, requests: Option<Bytes>, parse: Bytes -> Option<Rec>)
    returns (rows: seq<Row>)
    ensures RowsFor(rows, Pieces(Lines(predictions)), Pieces(Lines(requests.GetOr([]))), parse)
  {
    hide Indexed, Find, Pieces, Concat, Lines, Blank, LineLength, RowsFor, Ids, Bases, Candidate, LeastFree, RecOf;
    hide RequestPart, WithoutEnding;
    var byNative: map<string, RequestRef>, byDoc: map<int, RequestRef> := map[], map[];
    NoPieces(parse);
    NoLines();
    if requests.Some? {
      byNative, byDoc := IndexRequests(requests.value, parse);
    }
    ghost var requestPieces := Pieces(Lines(requests.GetOr([])));
    var keys := new Keys();
    var lineNumber := 0;
    var offset := 0;
    var lines := Lines(predictions);
    rows := [];
    NoRows(requestPieces, parse);
    assert lines[..0] == [];
    for n := 0 to |lines|
      invariant keys.Valid()
      invariant offset == |Concat(lines[..n])| && lineNumber == |Pieces(lines[..n])|
      invariant RowsFor(rows, Pieces(lines[..n]), requestPieces, parse)
      invariant keys.used == SetOf(Ids(Bases(Pieces(lines[..n]), parse)))
    {
      var line := lines[n];
      PiecesNext(lines, n);
      if !Blank(line) {
        ghost var before := Pieces(lines[..n]);
        lineNumber := lineNumber + 1;
        var parsed := parse(line);
        var rec := if parsed.Some? then parsed.value else Rec(None, None, None);
        RecIs(Piece(offset, line), parse, rec);
        var original := Original(rec, lineNumber);
        var base := Cut(original, MAX_NATIVE_ID);
        if base == "" {
          base := "line_" + Numeral(lineNumber);
        }
        var nativeId := keys.Unique(base);
        var request := if original in byNative then Some(byNative[original]) else None;
        if request.None? && rec.docId.Some? && rec.docId.value.number.Some? {
          var number := rec.docId.value.number.value;
          request := if number in byDoc then Some(byDoc[number]) else None;
        }
        RequestLookup(requestPieces, parse, byNative, byDoc, rec, lineNumber);
        var row := Row(nativeId, offset, Int32(LineLength(line)), RequestPart(request));
        NextRow(rows, before, Piece(offset, line), requestPieces, parse, row);
        rows := rows + [row];
      }
      offset := offset + |line|;
    }
    assert lines[..|lines|] == lines;
  }

  /**
   The line stands in the file at this offset, and a byte range of this length from there is
   the line without its ending; there is no length if it does not fit 31 bits.
   */
  ghost predicate Addresses(file: Bytes, offset: nat, length: Option<nat>, line: Bytes) {
    && offset + |line| <= |file| && file[offset..][..|line|] == line
    && exists n :: 0 <= n <= |line| && WithoutEnding(line, file[offset..][..n])
         && length == if n < 0x8000_0000 then Some(n) else None
  }

  lemma SliceAddresses(file: Bytes, offset: nat, line: Bytes)
    requires offset + |line| <= |file| && file[offset..][..|line|] == line
    ensures Addresses(file, offset, Int32(LineLength(line)), line)
  {
    hide WithoutEnding, LineLength;
    var n := LineLength(line);
    assert file[offset..][..n] == line[..n];
  }

  /** The row count, and every row's slice: its line up to the line ending, the slices one after the other. */
  lemma RowsAddressTheFile(
    rows: seq<Row>, file: Bytes, requests: seq<Piece>, parse: Bytes -> Option<Rec>)
    requires RowsFor(rows, Pieces(Lines(file)), requests, parse)
    ensures |rows| == |Pieces(Lines(file))|
    ensures forall k {:trigger rows[k]} :: 0 <= k < |rows| ==>
      && OneLine(Pieces(Lines(file))[k].line)
      && Addresses(file, rows[k].predOffset, rows[k].predLength, Pieces(Lines(file))[k].line)
    ensures forall j, k {:trigger rows[j], rows[k]} :: 0 <= j < k < |rows| ==>
      rows[j].predOffset + |Pieces(Lines(file))[j].line| <= rows[k].predOffset
    ensures forall j, k {:trigger rows[j], rows[k]} :: 0 <= j < k < |rows| ==> rows[j].nativeId != rows[k].nativeId
  {
    hide Lines, Concat, Pieces, LineLength, Ids, Bases, Addresses, OneLine, WithoutEnding, RequestPart, RequestOf;
    var pieces := Pieces(Lines(file));
    LinesConcat(file);
    PiecesAreSlices(Lines(file));
    IdsDistinct(Bases(pieces, parse));
    forall k | 0 <= k < |rows|
      ensures OneLine(pieces[k].line) && Addresses(file, rows[k].predOffset, rows[k].predLength, pieces[k].line)
    {
      PieceIsLine(file, k);
      SliceAddresses(file, pieces[k].offset, pieces[k].line);
    }
  }

  /** Line j is the first of these that has the key. */
  ghost predicate FirstWith(pieces: seq<Piece>, parse: Bytes -> Option<Rec>, key: Key, j: nat) {
    j < |pieces| && HasKey(parse(pieces[j].line), key) && forall i :: 0 <= i < j ==> !HasKey(parse(pieces[i].line), key)
  }

  ghost predicate NoneWith(pieces: seq<Piece>, parse: Bytes -> Option<Rec>, key: Key) {
    forall i :: 0 <= i < |pieces| ==> !HasKey(parse(pieces[i].line), key)
  }

  /** The row's request is the part of the requests file that its line j is. */
  ghost predicate Quotes(request: RowRequest, file: Bytes, parse: Bytes -> Option<Rec>, j: nat) {
    && j < |Pieces(Lines(file))| && parse(Pieces(Lines(file))[j].line).Some?
    && var line := Pieces(Lines(file))[j].line;
    && Addresses(file, request.offset, request.length, line)
    && IsPreview(request.preview, parse(line).value.preview.GetOr(""))
  }

  /** As much of the text as fits 300 characters; none of an empty text. */
  predicate IsPreview(preview: Option<string>, text: string) {
    if text == "" then preview.None?
    else preview.Some? && preview.value <= text && |preview.value| == if |text| < 300 then |text| else 300
  }

  /** The request is the first line of the requests file with this key. */
  ghost predicate Found(request: RowRequest, file: Bytes, parse: Bytes -> Option<Rec>, key: Key) {
    exists j: nat :: FirstWith(Pieces(Lines(file)), parse, key, j) && Quotes(request, file, parse, j)
  }

  lemma RefQuotes(file: Bytes, parse: Bytes -> Option<Rec>, j: nat)
    requires j < |Pieces(Lines(file))| && parse(Pieces(Lines(file))[j].line).Some?
    ensures var p := Pieces(Lines(file))[j];
      Quotes(RequestPart(Some(RefTo(p, parse(p.line).value))).value, file, parse, j)
  {
    hide Lines, Concat, Pieces, LineLength, Addresses, WithoutEnding;
    LinesConcat(file);
    PiecesAreSlices(Lines(file));
    var p := Pieces(Lines(file))[j];
    SliceAddresses(file, p.offset, p.line);
  }

  lemma KeyIsFound(file: Bytes, parse: Bytes -> Option<Rec>, key: Key)
    ensures var pieces := Pieces(Lines(file));
      var request := RequestPart(Find(pieces, parse, key));
      if request.None? then NoneWith(pieces, parse, key) else Found(request.value, file, parse, key)
  {
    hide Lines, Pieces, Find, Quotes;
    var pieces := Pieces(Lines(file));
    FindIsFirst(pieces, parse, key);
    if Find(pieces, parse, key).Some? {
      var j :| 0 <= j < |pieces| && HasKey(parse(pieces[j].line), key)
        && Find(pieces, parse, key).value == RefTo(pieces[j], parse(pieces[j].line).value)
        && forall i :: 0 <= i < j ==> !HasKey(parse(pieces[i].line), key);
      RefQuotes(file, parse, j);
      assert FirstWith(pieces, parse, key, j);
    }
  }

  /**
   The request of a row: the first line of the requests file with the id the row asks for; if
   there is none, the first with its integer doc id; none exactly if there is neither.
   */
  lemma RequestIsFound(
    row: Row, id: string, p: Piece, number: nat, file: Bytes, parse: Bytes -> Option<Rec>)
    requires RowFor(row, id, p, number, Pieces(Lines(file)), parse)
    ensures
      var pieces, rec := Pieces(Lines(file)), RecOf(p, parse);
      var native := Native(Original(rec, number));
      if row.request.None? then
        NoneWith(pieces, parse, native) && forall d :: HasKey(Some(rec), Doc(d)) ==> NoneWith(pieces, parse, Doc(d))
      else
        || Found(row.request.value, file, parse, native)
        || (NoneWith(pieces, parse, native)
              && exists d :: HasKey(Some(rec), Doc(d)) && Found(row.request.value, file, parse, Doc(d)))
  {
    hide Lines, Pieces, Find, Found, NoneWith, RecOf, Original;
    var rec := RecOf(p, parse);
    KeyIsFound(file, parse, Native(Original(rec, number)));
    if rec.docId.Some? && rec.docId.value.number.Some? {
      KeyIsFound(file, parse, Doc(rec.docId.value.number.value));
      assert HasKey(Some(rec), Doc(rec.docId.value.number.value));
    }
  }

  lemma PieceIsLine(file: Bytes, k: nat)
    requires k < |Pieces(Lines(file))|
    ensures OneLine(Pieces(Lines(file))[k].line)
  {
    LinesAreLines(file);
    PieceOfLines(Lines(file), k);
  }

  lemma {:induction false} PieceOfLines(lines: seq<Bytes>, k: nat)
    requires k < |Pieces(lines)|
    ensures Pieces(lines)[k].line in lines && !Blank(Pieces(lines)[k].line)
  {
    var front := lines[..|lines| - 1];
    if k < |Pieces(front)| {
      PieceOfLines(front, k);
    }
  }

  /** The ids before they are cut. */
  function Originals(pieces: seq<Piece>, parse: Bytes -> Option<Rec>): (originals: seq<string>)
    ensures |originals| == |pieces|
  {
    if pieces == [] then []
    else Originals(pieces[..|pieces| - 1], parse) + [Original(RecOf(pieces[|pieces| - 1], parse), |pieces|)]
  }

  predicate Fits(id: string) {
    1 <= |id| <= MAX_NATIVE_ID
  }

  /** The base of an id is as much of what the line asks for as fits, or the line's number if it asks for nothing. */
  lemma {:induction false} BasesOfOriginals(pieces: seq<Piece>, parse: Bytes -> Option<Rec>, i: nat)
    requires i < |pieces| && |pieces| + 2 < Pow10(NUMERAL_LIMIT)
    ensures var base, original := Bases(pieces, parse)[i], Originals(pieces, parse)[i];
      && Fits(base) && (Fits(original) ==> base == original)
      && (if original == "" then base == "line_" + Numeral(i + 1)
          else base <= original && |base| == if |original| < 512 then |original| else 512)
  {
    hide Pow10, Numeral;
    if i < |pieces| - 1 {
      BasesOfOriginals(pieces[..|pieces| - 1], parse, i);
    } else {
      NumeralShort(|pieces|, NUMERAL_LIMIT);
    }
  }

  /** A file keeps its ids exactly when they are already distinct and have 1 to 512 characters. */
  lemma IdsKept(pieces: seq<Piece>, parse: Bytes -> Option<Rec>)
    requires |pieces| + 2 < Pow10(NUMERAL_LIMIT)
    ensures
      var originals := Originals(pieces, parse);
      Ids(Bases(pieces, parse)) == originals <==>
        Distinct(originals) && forall i :: 0 <= i < |originals| ==> Fits(originals[i])
  {
    hide Pow10, Ids, Bases, Originals;
    var bases, originals := Bases(pieces, parse), Originals(pieces, parse);
    forall i | 0 <= i < |pieces| ensures Fits(bases[i]) && (Fits(originals[i]) ==> bases[i] == originals[i]) {
      BasesOfOriginals(pieces, parse, i);
    }
    IdsAreKeys(bases);
    UnchangedWhenDistinct(bases);
    if forall i :: 0 <= i < |originals| ==> Fits(originals[i]) {
      assert bases == originals;
    }
  }

  /**
   What the lines ask for: a native id if there is one, else the doc id, else the number of
   the line. If that is one to 512 characters for each line and never the same, they get it.
   */
  lemma WantedIdsAreKept(pieces: seq<Piece>, parse: Bytes -> Option<Rec>, wanted: seq<string>)
    requires |wanted| == |pieces| && |pieces| + 2 < Pow10(NUMERAL_LIMIT)
    requires Distinct(wanted) && forall k :: 0 <= k < |wanted| ==> Fits(wanted[k])
    requires forall k :: 0 <= k < |wanted| ==>
      var rec := RecOf(pieces[k], parse);
      && (rec.nativeId.Some? ==> wanted[k] == rec.nativeId.value)
      && (rec.nativeId.None? && rec.docId.Some? ==> wanted[k] == "doc_" + rec.docId.value.text)
      && (rec.nativeId.None? && rec.docId.None? ==> wanted[k] == "line_" + Numeral(k + 1))
    ensures Ids(Bases(pieces, parse)) == wanted
  {
    hide Pow10, Ids, Bases, Originals, Numeral, RecOf, Distinct, Fits;
    forall k | 0 <= k < |pieces| ensures Originals(pieces, parse)[k] == wanted[k] {
      OriginalAt(pieces, parse, k);
    }
    IdsKept(pieces, parse);
    assert Originals(pieces, parse) == wanted;
  }

  lemma {:induction false} OriginalAt(pieces: seq<Piece>, parse: Bytes -> Option<Rec>, k: nat)
    requires k < |pieces|
    ensures Originals(pieces, parse)[k] == Original(RecOf(pieces[k], parse), k + 1)
  {
    hide Original, RecOf;
    if k < |pieces| - 1 {
      OriginalAt(pieces[..|pieces| - 1], parse, k);
    }
  }

  /** A file of one line whose id has 513 characters: the last one is cut off. */
  lemma LongIdIsCut(pieces: seq<Piece>, parse: Bytes -> Option<Rec>)
    requires |pieces| == 1 && |Originals(pieces, parse)[0]| == 513
    ensures Ids(Bases(pieces, parse)) == [Originals(pieces, parse)[0][..512]] != Originals(pieces, parse)
  {
    var bases := Bases(pieces, parse);
    assert bases[..0] == [] && Ids(bases[..0]) == [];
    LeastIsUnique(bases[0], SetOf([]), 1);
    assert Ids(bases) == [] + [bases[0]];
  }

  // ------------------------------------------------------------------ batches

  /** batched: a size below one makes batches of one. */
  method Batched<T>(rows: seq<T>, size: int) returns (batches: seq<seq<T>>)
    ensures Flatten(batches) == rows
    ensures forall b :: 0 <= b < |batches| - 1 ==> |batches[b]| == if size < 1 then 1 else size
    ensures forall b :: 0 <= b < |batches| ==> 1 <= |batches[b]| <= if size < 1 then 1 else size
  {
    hide *;
    batches := [];
    var batch: seq<T> := [];
    FlattenNothing<T>();
    for k := 0 to |rows|
      invariant Flatten(batches) + batch == rows[..k]
      invariant forall b :: 0 <= b < |batches| ==> |batches[b]| == if size < 1 then 1 else size
      invariant batch == [] || |batch| < size
    {
      assert rows[..k + 1] == Flatten(batches) + (batch + [rows[k]]);
      batch := batch + [rows[k]];
      if |batch| >= size {
        FlattenAppend(batches, batch);
        batches := batches + [batch];
        batch := [];
      }
    }
    assert rows[..|rows|] == rows;
    if batch != [] {
      FlattenAppend(batches, batch);
      batches := batches + [batch];
    }
  }

  lemma FlattenNothing<T>()
    ensures Flatten<T>([]) == []
  {
  }
}
