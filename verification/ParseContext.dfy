/** ParseContext (base/parse_context.cc, base/parse_context.h): a backtracking
    cursor over input that arrives in chunks.

    The flat cursor it stands for is a position in the whole input and a list of
    marked positions; every method says what it does to that. */
module ParseContexts {

  /** One contiguous block of the input. */
  datatype Buffer = Buffer(ofs: nat, text: string)

  /** A token: where the context was when it was made.  A dead one has lost its
      pointer to the context but is still in the list. */
  datatype Token = Token(id: nat, ofs: nat, line: nat, col: nat, dead: bool)

  /** Line and column after `n` characters, counted as operator ++ counts them. */
  function LineCol(input: string, n: nat, line: nat, col: nat): (nat, nat)
    requires n <= |input|
  {
    if n == 0 then (line, col) else
    var (l, c) := LineCol(input, n - 1, line, col);
    if input[n - 1] == '\n' then (l + 1, 1) else (l, c + 1)
  }

  /** The line and column of a position: each newline before it is a line more, and
      the column counts from the last of them, or from where the input starts. */
  ghost predicate IsPlace(input: string, n: nat, line0: nat, col0: nat, line: nat, col: nat) {
    && n <= |input|
    && line == line0 + multiset(input[..n])['\n']
    && ((forall k :: 0 <= k < n ==> input[k] != '\n') ==> col == col0 + n)
    && (forall j :: 0 <= j < n && LastNewline(input, j, n) ==> col == n - j)
  }

  ghost predicate LastNewline(input: string, j: nat, n: nat)
    requires j < n <= |input|
  {
    input[j] == '\n' && forall k :: j < k < n ==> input[k] != '\n'
  }

  lemma {:induction false} LineColIsPlace(input: string, n: nat, line: nat, col: nat)
    requires n <= |input|
    ensures var (l, c) := LineCol(input, n, line, col); IsPlace(input, n, line, col, l, c)
  {
    if n > 0 {
      LineColIsPlace(input, n - 1, line, col);
      assert input[..n] == input[..n - 1] + [input[n - 1]];
      forall j | 0 <= j < n && LastNewline(input, j, n) ensures LineCol(input, n, line, col).1 == n - j {
        if j < n - 1 { assert LastNewline(input, j, n - 1); }
      }
      if input[n - 1] != '\n' && (forall k :: 0 <= k < n ==> input[k] != '\n') {
        assert forall k :: 0 <= k < n - 1 ==> input[k] != '\n';
      }
    }
  }

  // ---------------------------------------------------------- the flat cursor

  datatype Mark = Mark(id: nat, pos: nat, dead: bool)

  datatype Flat = Flat(pos: nat, marks: seq<Mark>, nextId: nat)

  function End(b: Buffer): nat {
    b.ofs + |b.text|
  }

  /** The marks without the live one called `id`. */
  function Without(marks: seq<Mark>, id: nat): seq<Mark> {
    if marks == [] then []
    else if Alive(marks[0], id) then marks[1..]
    else [marks[0]] + Without(marks[1..], id)
  }

  /** The marks with the one called `id` dead. */
  function Kill(marks: seq<Mark>, id: nat): (r: seq<Mark>)
    ensures |r| == |marks|
  {
    seq(|marks|, i requires 0 <= i < |marks| => if Alive(marks[i], id) then marks[i].(dead := true) else marks[i])
  }

  predicate Alive(m: Mark, id: nat) {
    m.id == id && !m.dead
  }

  predicate Marked(marks: seq<Mark>, id: nat) {
    exists i :: 0 <= i < |marks| && Alive(marks[i], id)
  }

  function PosOf(marks: seq<Mark>, id: nat): (pos: nat)
    requires Marked(marks, id)
    ensures exists i :: 0 <= i < |marks| && marks[i] == Mark(id, pos, false)
  {
    if Alive(marks[0], id) then marks[0].pos else PosOf(marks[1..], id)
  }

  /** The first position from `pos` on whose character is `found`, or the end. */
  function FindChar(input: string, pos: nat, found: char -> bool): (r: nat)
    requires pos <= |input|
    ensures pos <= r <= |input| && (r < |input| ==> found(input[r]))
    ensures forall i :: pos <= i < r ==> !found(input[i])
    decreases |input| - pos
  {
    if pos == |input| || found(input[pos]) then pos else FindChar(input, pos + 1, found)
  }

  datatype Op =
    | Next                   // operator ++
    | Peek                   // operator *
    | Literal(c: char)       // match_literal(char)
    | Str(s: string)         // match_literal(string)
    | TextUntil(found: char -> bool)   // match_text up to a delimiter
    | MakeToken              // a Revert_Token or Hold_Token is constructed
    | Revert(id: nat, inDestructor: bool)   // Revert_Token::apply, or its destructor
    | Forget(id: nat)        // ignore, stop, or Hold_Token's destructor
    | Captured(id: nat)      // Hold_Token::captured

  datatype Out = Done | Failed(o: Outcome) | Char(c: char) | Matched(b: bool) | Text(s: string)

  datatype Outcome = Ok | UnexpectedEof | NotLatest | NotLive

  ghost predicate Inside(input: string, f: Flat) {
    f.pos <= |input| && forall i :: 0 <= i < |f.marks| ==> f.marks[i].pos <= |input|
  }

  /** What an operation does to a plain cursor over the whole input. */
  ghost function FlatStep(input: string, f: Flat, op: Op): (Flat, Out)
    requires Inside(input, f)
  {
    match op
    case Next => if f.pos == |input| then (f, Failed(UnexpectedEof)) else (f.(pos := f.pos + 1), Done)
    case Peek => (f, if f.pos == |input| then Failed(UnexpectedEof) else Char(input[f.pos]))
    case Literal(c) =>
      if f.pos < |input| && input[f.pos] == c then (f.(pos := f.pos + 1), Matched(true)) else (f, Matched(false))
    case Str(s) =>
      if s <= input[f.pos..] then (f.(pos := f.pos + |s|, nextId := f.nextId + 1), Matched(true))
      else (f.(nextId := f.nextId + 1), Matched(false))
    case TextUntil(found) =>
      var p := FindChar(input, f.pos, found);
      (f.(pos := p), Text(input[f.pos..p]))
    case MakeToken => (f.(marks := f.marks + [Mark(f.nextId, f.pos, false)], nextId := f.nextId + 1), Done)
    case Revert(id, inDestructor) =>
      if !Marked(f.marks, id) then (f, Done)
      else if f.marks[|f.marks| - 1].id != id then
        // the mark stays, dead, in the way of those before it
        (f.(marks := Kill(f.marks, id)), if inDestructor then Done else Failed(NotLatest))
      else (f.(pos := f.marks[|f.marks| - 1].pos, marks := f.marks[..|f.marks| - 1]), Done)
    case Forget(id) => (f.(marks := Without(f.marks, id)), Done)
    case Captured(id) =>
      if !Marked(f.marks, id) then (f, Failed(NotLive))
      else
        var p := PosOf(f.marks, id);   // never beyond the cursor
        (f, Text(if p <= f.pos then input[p..f.pos] else ""))
  }

  /** A whole program on the flat cursor, and everything it answers. */
  ghost function FlatRun(input: string, f: Flat, ops: seq<Op>): (r: (Flat, seq<Out>))
    requires Inside(input, f)
    ensures Inside(input, r.0) && |r.1| == |ops|
  {
    if ops == [] then (f, []) else
    var (g, outs) := FlatRun(input, f, ops[..|ops| - 1]);
    StepInside(input, g, ops[|ops| - 1]);
    var (h, out) := FlatStep(input, g, ops[|ops| - 1]);
    (h, outs + [out])
  }

  lemma StepInside(input: string, f: Flat, op: Op)
    requires Inside(input, f)
    ensures Inside(input, FlatStep(input, f, op).0)
  {
    if op.Forget? {
      WithoutFrom(f.marks, op.id);
      var w := Without(f.marks, op.id);
      forall i | 0 <= i < |w| ensures w[i].pos <= |input| { assert w[i] in w; }
    }
  }

  lemma {:induction false} WithoutFrom(marks: seq<Mark>, id: nat)
    ensures forall m :: m in Without(marks, id) ==> m in marks
  {
    if marks != [] && !Alive(marks[0], id) { WithoutFrom(marks[1..], id); }
  }

  function MarksOf(tokens: seq<Token>): (m: seq<Mark>)
    ensures |m| == |tokens|
    ensures forall i :: 0 <= i < |m| ==> m[i] == Mark(tokens[i].id, tokens[i].ofs, tokens[i].dead)
  {
    seq(|tokens|, i requires 0 <= i < |tokens| => Mark(tokens[i].id, tokens[i].ofs, tokens[i].dead))
  }

  // -------------------------------------------------------------- invariants

  /** A buffer holds the input's characters. */
  ghost predicate Piece(b: Buffer, input: string) {
    End(b) <= |input| && forall k :: 0 <= k < |b.text| ==> b.text[k] == input[b.ofs + k]
  }

  /** The buffers are consecutive pieces of what has been read. */
  ghost predicate Pieces(buffers: seq<Buffer>, input: string, read: nat) {
    && read <= |input|
    && (forall i :: 0 <= i < |buffers| ==> End(buffers[i]) <= read && Piece(buffers[i], input))
    && (forall i :: 0 <= i < |buffers| && buffers[i].text == [] ==> input == [])   // empty memory region
    && (forall i :: 0 <= i < |buffers| - 1 ==> End(buffers[i]) == buffers[i + 1].ofs)
    && (buffers != [] ==> End(buffers[|buffers| - 1]) == read)
  }

  ghost predicate Ordered(tokens: seq<Token>) {
    forall i, j :: 0 <= i < j < |tokens| ==> tokens[i].ofs <= tokens[j].ofs && tokens[i].id < tokens[j].id
  }

  lemma PiecesTail(buffers: seq<Buffer>, input: string, read: nat)
    requires Pieces(buffers, input, read) && buffers != []
    ensures Pieces(buffers[1..], input, read)
  {
  }

  lemma PiecesSnoc(buffers: seq<Buffer>, input: string, read: nat, n: nat)
    requires Pieces(buffers, input, read) && 0 < n && read + n <= |input|
    ensures Pieces(buffers + [Buffer(read, input[read..read + n])], input, read + n)
  {
  }

  /** Earlier buffers end before later ones start. */
  lemma {:induction false} PiecesOrdered(buffers: seq<Buffer>, input: string, read: nat, i: nat, j: nat)
    requires Pieces(buffers, input, read) && i < j < |buffers|
    ensures End(buffers[i]) <= buffers[j].ofs
    decreases j - i
  {
    if i + 1 < j { PiecesOrdered(buffers, input, read, i + 1, j); }
  }

  lemma FirstBuffer(buffers: seq<Buffer>, input: string, read: nat)
    requires Pieces(buffers, input, read) && buffers != []
    ensures buffers[0].ofs <= read
  {
    if |buffers| > 1 { PiecesOrdered(buffers, input, read, 0, |buffers| - 1); }
  }

  /** The cursor is inside the current buffer, or at the end of the input. */
  ghost predicate CursorOk(buffers: seq<Buffer>, current: nat, cur: nat, ebuf: nat, ofs: nat, read: nat, end: nat) {
    && current <= |buffers|
    && cur <= ebuf
    && (current < |buffers| ==> ebuf == |buffers[current].text| && ofs == buffers[current].ofs + cur)
    && (cur == ebuf ==> ofs == end && read == end)
    && (cur < ebuf ==> current < |buffers|)
  }

  /** A token sits where it was made, at or before the cursor. */
  ghost predicate TokenOk(t: Token, input: string, ofs: nat, nextId: nat, startLine: nat, startCol: nat) {
    && t.ofs <= ofs && t.ofs <= |input| && t.id < nextId
    && (t.line, t.col) == LineCol(input, t.ofs, startLine, startCol)
  }

  /** The token goes by this name and still knows its context. */
  predicate Is(t: Token, id: nat) {
    t.id == id && !t.dead
  }

  /** The earliest token's position is still buffered. */
  ghost predicate Buffered(tokens: seq<Token>, buffers: seq<Buffer>, read: nat) {
    tokens != [] && tokens[0].ofs < read ==> buffers != [] && buffers[0].ofs <= tokens[0].ofs
  }

  class ParseContext {
    const input: string       // everything there is to read
    const startLine: nat
    const startCol: nat
    const chunkSize: nat
    var hasStream: bool
    var streamEof: bool       // the stream's eof flag
    var read: nat             // characters taken from the stream (or given as memory)
    var buffers: seq<Buffer>
    var current: nat          // index of the current buffer; |buffers| is end()
    var cur: nat              // cur_ and ebuf_, counted from the buffer's start
    var ebuf: nat
    var line: nat
    var col: nat
    var ofs: nat
    var tokens: seq<Token>    // the token list, earliest first
    var nextId: nat

    ghost predicate Valid()
      reads this
    {
      && StreamOk()
      && CursorOk(buffers, current, cur, ebuf, ofs, read, |input|)
      && Placed()
    }

    ghost predicate StreamOk()
      reads this
    {
      && chunkSize > 0
      && Pieces(buffers, input, read)
      && (!hasStream || streamEof ==> read == |input|)
    }

    /** Line, column and tokens, for wherever the cursor is; and no token's
        position has been freed, dead or not. */
    ghost predicate Placed()
      reads this
    {
      && ofs <= |input| && (line, col) == LineCol(input, ofs, startLine, startCol)
      && Ordered(tokens)
      && (forall i :: 0 <= i < |tokens| ==> TokenOk(tokens[i], input, ofs, nextId, startLine, startCol))
      && Buffered(tokens, buffers, read)
    }

    /** The flat cursor. */
    ghost function View(): Flat
      reads this
    {
      Flat(ofs, MarksOf(tokens), nextId)
    }

    /** The input as a memory region. */
    constructor FromMemory(input: string, line: nat, col: nat)
      ensures Valid() && View() == Flat(0, [], 0) && this.input == input
      ensures this.line == startLine == line && this.col == startCol == col
    {
      this.input, startLine, startCol, chunkSize := input, line, col, 1;
      hasStream, streamEof, read := false, false, |input|;
      buffers := [Buffer(0, input)];
      current, cur, ebuf := 0, 0, |input|;
      this.line, this.col, ofs := line, col, 0;
      tokens, nextId := [], 0;
    }

    /** The input as a stream read in chunks; the stream constructor starts at
        line 1, column 1, whatever it is given. */
    constructor FromStream(input: string, chunkSize: nat)
      requires chunkSize > 0
      ensures Valid() && View() == Flat(0, [], 0) && this.input == input
      ensures line == startLine == 1 && col == startCol == 1
    {
      this.input, startLine, startCol, this.chunkSize := input, 1, 1, chunkSize;
      hasStream, streamEof, read := true, false, 0;
      buffers := [];
      current, cur, ebuf := 0, 0, 0;
      line, col, ofs := 1, 1, 0;
      tokens, nextId := [], 0;
      new;
      Begin();
    }

    method Begin()
      requires StreamOk() && Placed() && buffers == [] && ofs == read == cur == ebuf == 0
      modifies this`current, this`ebuf, this`streamEof, this`read, this`buffers
      ensures Valid()
    {
      current := ReadNewBuffer();
      if current != |buffers| { ebuf := |buffers[current].text|; }
    }

    // ------------------------------------------------------------ buffers

    /** Take the next chunk from the stream, if there is one; the result is its
        index, or end(). */
    method ReadNewBuffer() returns (result: nat)
      requires StreamOk() && ofs == read
      modifies this`streamEof, this`read, this`buffers
      ensures StreamOk()
      ensures old(buffers) <= buffers
      ensures if old(read) < |input|
              then |buffers| == |old(buffers)| + 1 && result == |old(buffers)|
                   && buffers[result].ofs == old(read) && buffers[result].text != []
              else buffers == old(buffers) && read == old(read) && result == |buffers|
    {
      if !hasStream { return |buffers|; }
      if streamEof { return |buffers|; }
      var n := if chunkSize < |input| - read then chunkSize else |input| - read;
      if n < chunkSize { streamEof := true; }   // a short read sets eof
      if n == 0 { return |buffers|; }
      result := |buffers|;
      Append(n);
    }

    method Append(n: nat)
      requires Pieces(buffers, input, read) && ofs == read && 0 < n && read + n <= |input|
      modifies this`read, this`buffers
      ensures Pieces(buffers, input, read) && read == old(read) + n
      ensures buffers == old(buffers) + [Buffer(old(read), input[old(read)..read])]
    {
      var chunk := input[read..read + n];
      var lastOfs := if buffers == [] then ofs else End(buffers[|buffers| - 1]);
      PiecesSnoc(buffers, input, read, n);
      read := read + n;
      buffers := buffers + [Buffer(lastOfs, chunk)];
    }

    /** Erase buffers from the front, up to the current one and up to the first
        that the earliest token may need -- and no fewer. */
    method FreeBuffers()
      requires Valid()
      modifies this`buffers, this`current
      ensures Valid()
      ensures |buffers| <= |old(buffers)| && buffers == old(buffers)[|old(buffers)| - |buffers|..]
      ensures current == 0 || (tokens != [] && tokens[0].ofs < End(buffers[0]))
    {
      while current != 0 && !(tokens != [] && tokens[0].ofs < End(buffers[0]))
        invariant Valid()
        invariant |buffers| <= |old(buffers)| && buffers == old(buffers)[|old(buffers)| - |buffers|..]
        decreases current
      {
        FreeOne();
      }
    }

    method FreeOne()
      requires Valid() && current != 0 && !(tokens != [] && tokens[0].ofs < End(buffers[0]))
      modifies this`buffers, this`current
      ensures Valid() && buffers == old(buffers)[1..] && current == old(current) - 1
    {
      PiecesTail(buffers, input, read);
      StillBuffered(tokens, buffers, input, read);
      buffers := buffers[1..];
      current := current - 1;
    }

    /** operator ++ has reached ebuf_. */
    method NextBuffer()
      requires StreamOk() && Placed()
      requires current < |buffers| && cur == ebuf == |buffers[current].text| && ofs == End(buffers[current])
      modifies this`current, this`cur, this`ebuf, this`streamEof, this`read, this`buffers
      ensures Valid()
    {
      if current + 1 < |buffers| {
        current := current + 1;
      } else {
        ReadOn();
      }
      if current != |buffers| {
        cur := 0;
        ebuf := |buffers[current].text|;
      }
      FreeBuffers();
    }

    method ReadOn()
      requires StreamOk() && Placed() && buffers != [] && current == |buffers| - 1 && ofs == End(buffers[current])
      modifies this`current, this`streamEof, this`read, this`buffers
      ensures StreamOk() && Buffered(tokens, buffers, read)
      ensures if current == |buffers| then ofs == read == |input|
              else current < |buffers| && buffers[current].ofs == ofs && buffers[current].text != []
    {
      FirstBuffer(buffers, input, read);
      LastEnds(buffers, input, read, current);
      current := ReadNewBuffer();
    }
  
    // ------------------------------------------------------- the operations

    method Eof() returns (b: bool)
      requires Valid()
      ensures b <==> ofs == |input|
    {
      return cur == ebuf;
    }

    /** The character at the cursor, when there is one. */
    function Here(): char
      requires cur < ebuf && current < |buffers| && ebuf == |buffers[current].text|
      reads this
    {
      buffers[current].text[cur]
    }

    lemma HereIs()
      requires Valid() && cur < ebuf
      ensures ofs < |input| && Here() == input[ofs]
    {
      PieceAt(buffers, input, read, current, cur);
    }

    /** operator * */
    method Peek() returns (r: Out)
      requires Valid()
      ensures r == if ofs == |input| then Failed(UnexpectedEof) else Char(input[ofs])
    {
      if cur == ebuf { return Failed(UnexpectedEof); }
      HereIs();
      return Char(Here());
    }

    /** operator ++ */
    method Advance() returns (r: Out)
      requires Valid()
      modifies this`line, this`col, this`ofs, this`cur, this`ebuf, this`current, this`streamEof, this`read, this`buffers
      ensures Valid()
      ensures if old(ofs) == |input| then r == Failed(UnexpectedEof) && ofs == old(ofs) else r == Done && ofs == old(ofs) + 1
      ensures IsPlace(input, ofs, startLine, startCol, line, col)
    {
      r := Failed(UnexpectedEof);
      if cur != ebuf {
        Bump();
        if cur == ebuf { NextBuffer(); }
        r := Done;
      }
      LineColIsPlace(input, ofs, startLine, startCol);
    }

    method Bump()
      requires Valid() && cur < ebuf
      modifies this`line, this`col, this`ofs, this`cur
      ensures Placed() && ofs == old(ofs) + 1 && cur == old(cur) + 1
    {
      HereIs();
      if Here() == '\n' { line := line + 1; col := 0; }
      ofs := ofs + 1;
      col := col + 1;
      cur := cur + 1;
    }

    method MatchLiteral(c: char) returns (b: bool)
      requires Valid()
      modifies this`line, this`col, this`ofs, this`cur, this`ebuf, this`current, this`streamEof, this`read, this`buffers
      ensures Valid() && old(ofs) <= |input|
      ensures b <==> old(ofs) < |input| && input[old(ofs)] == c
      ensures ofs == if b then old(ofs) + 1 else old(ofs)
    {
      if cur == ebuf { return false; }
      HereIs();
      if Here() == c {
        var _ := Advance();
        return true;
      }
      return false;
    }

    /** The characters up to the first that is `found`, or to the end. */
    method MatchText(found: char -> bool) returns (text: string)
      requires Valid()
      modifies this`line, this`col, this`ofs, this`cur, this`ebuf, this`current, this`streamEof, this`read, this`buffers
      ensures Valid() && old(ofs) <= |input|
      ensures ofs == FindChar(input, old(ofs), found) && text == input[old(ofs)..ofs]
    {
      text := "";
      while cur != ebuf && !found(Here())
        invariant Valid() && old(ofs) <= ofs
        invariant text == input[old(ofs)..ofs]
        invariant FindChar(input, old(ofs), found) == FindChar(input, ofs, found)
        decreases |input| - ofs
      {
        HereIs();
        text := text + [Here()];
        var _ := Advance();
      }
      if cur != ebuf { HereIs(); }
    }

    // ------------------------------------------------------------- tokens

    method NewToken() returns (id: nat)
      requires Valid()
      modifies this`tokens, this`nextId
      ensures Valid() && id == old(nextId) && nextId == id + 1
      ensures tokens == old(tokens) + [Token(id, ofs, line, col, false)]
    {
      id := nextId;
      FirstBufferIfAny();
      tokens := tokens + [Token(id, ofs, line, col, false)];
      nextId := nextId + 1;
    }

    lemma FirstBufferIfAny()
      requires Valid()
      ensures ofs <= read && (ofs < read ==> buffers != [] && buffers[0].ofs <= ofs)
    {
      if current < |buffers| {
        LastEnds(buffers, input, read, current);
        if current > 0 { PiecesOrdered(buffers, input, read, 0, current); }
      }
    }

    method Find(id: nat) returns (i: nat)
      requires Valid()
      ensures i <= |tokens| && (i < |tokens| ==> Is(tokens[i], id))
      ensures i == |tokens| ==> forall k :: 0 <= k < |tokens| ==> !Is(tokens[k], id)
      ensures i < |tokens| ==> forall k :: 0 <= k < |tokens| && Is(tokens[k], id) ==> k == i
    {
      i := 0;
      while i < |tokens| && !Is(tokens[i], id)
        invariant i <= |tokens| && forall k :: 0 <= k < i ==> !Is(tokens[k], id)
      {
        i := i + 1;
      }
      if i < |tokens| { OnlyOne(tokens, i); }
    }

    /** Token::remove, on the token at place `i` of the list. */
    method RemoveAt(i: nat)
      requires Valid() && i < |tokens|
      modifies this`tokens, this`buffers, this`current
      ensures Valid() && tokens == old(tokens)[..i] + old(tokens)[i + 1..]
    {
      DropOne(tokens, i, buffers, read);
      tokens := tokens[..i] + tokens[i + 1..];
      assert forall k :: 0 <= k < |tokens| ==> TokenOk(tokens[k], input, ofs, nextId, startLine, startCol);
      FreeBuffers();
    }

    /** The buffer that goto_ofs picks. */
    method Locate(target: nat) returns (found: bool, i: nat)
      requires Pieces(buffers, input, read) && (buffers != [] ==> buffers[0].ofs <= target)
      ensures found <==> buffers != [] && target <= read
      ensures found ==> i < |buffers| && buffers[i].ofs <= target <= End(buffers[i])
      ensures found && target < read ==> target < End(buffers[i])
    {
      i := 0;
      while i < |buffers|
        invariant i <= |buffers| && (forall k :: 0 <= k < i ==> End(buffers[k]) <= target)
        invariant i > 0 && i == |buffers| ==> read < target
      {
        LastEnds(buffers, input, read, i);
        assert i > 0 ==> End(buffers[i - 1]) == buffers[i - 1 + 1].ofs;
        if target < End(buffers[i]) || (target == 0 && End(buffers[i]) == 0) || (i == |buffers| - 1 && target == End(buffers[i])) {
          return true, i;
        }
        i := i + 1;
      }
      return false, i;
    }

    /** Go to a position.  It is found if the cursor is there or it is buffered;
        if not, the code throws with the position changed and the pointers not.
        A position at the end of the last buffer is found there even when the
        stream has more, and eof() is then true too early. */
    method GotoOfs(target: nat, targetLine: nat, targetCol: nat) returns (found: bool)
      requires Valid()
      requires target != ofs && buffers != [] ==> buffers[0].ofs <= target
      modifies this`ofs, this`line, this`col, this`cur, this`ebuf, this`current
      ensures found <==> target == old(ofs) || (buffers != [] && target <= read)
      ensures ofs == target
      ensures target == old(ofs) ==> Valid() && line == old(line) && col == old(col)
      ensures target != old(ofs) ==> line == targetLine && col == targetCol
      ensures target != old(ofs) && found ==>
                if target == read < |input| then cur == ebuf else CursorOk(buffers, current, cur, ebuf, ofs, read, |input|)
      ensures !found ==> cur == old(cur) && ebuf == old(ebuf) && current == old(current)
    {
      if ofs == target { return true; }
      var i;
      found, i := Locate(target);
      ofs, line, col := target, targetLine, targetCol;
      if found {
        LastEnds(buffers, input, read, i);
        if target == End(buffers[i]) { WholeIsRead(buffers, input, read, i, target); }
        cur, ebuf, current := target - buffers[i].ofs, |buffers[i].text|, i;
      }
    }

    /** Token::apply: back to where the latest token was made, and drop it.  A
        token that is not the latest is disabled, and stays in the list. */
    method ApplyToken(id: nat, inDestructor: bool) returns (r: Out)
      requires Valid()
      modifies this`ofs, this`line, this`col, this`cur, this`ebuf, this`current, this`tokens, this`buffers
      ensures Valid()
      ensures (forall k :: 0 <= k < |old(tokens)| ==> !Is(old(tokens)[k], id)) ==>
                r == Done && ofs == old(ofs) && tokens == old(tokens)
      ensures forall k :: 0 <= k < |old(tokens)| && Is(old(tokens)[k], id) ==>
                if k == |old(tokens)| - 1
                then r == Done && ofs == old(tokens)[k].ofs && tokens == old(tokens)[..k]
                else r == (if inDestructor then Done else Failed(NotLatest))
                     && ofs == old(ofs) && tokens == old(tokens)[k := old(tokens)[k].(dead := true)]
    {
      var i := Find(id);
      if i == |tokens| { return Done; }
      if i != |tokens| - 1 {
        Disable(i);
        return if inDestructor then Done else Failed(NotLatest);
      }
      ApplyLast(i);
      return Done;
    }

    method ApplyLast(i: nat)
      requires Valid() && i + 1 == |tokens|
      modifies this`ofs, this`line, this`col, this`cur, this`ebuf, this`current, this`tokens, this`buffers
      ensures Valid() && ofs == old(tokens)[i].ofs && tokens == old(tokens)[..i]
    {
      GoBack(i);
      RemoveAt(i);
      assert old(tokens)[i + 1..] == [];
    }

    method Disable(i: nat)
      requires Valid() && i < |tokens|
      modifies this`tokens
      ensures Valid() && tokens == old(tokens)[i := old(tokens)[i].(dead := true)]
    {
      assert TokenOk(tokens[i], input, ofs, nextId, startLine, startCol);
      tokens := tokens[i := tokens[i].(dead := true)];
      assert forall k :: 0 <= k < |tokens| ==> TokenOk(tokens[k], input, ofs, nextId, startLine, startCol);
    }

    /** goto_ofs as apply calls it: the latest token's position is buffered. */
    method GoBack(i: nat)
      requires Valid() && i == |tokens| - 1
      modifies this`ofs, this`line, this`col, this`cur, this`ebuf, this`current
      ensures Valid() && ofs == tokens[i].ofs
    {
      FirstBufferIfAny();
      assert TokenOk(tokens[i], input, ofs, nextId, startLine, startCol);
      var _ := GotoOfs(tokens[i].ofs, tokens[i].line, tokens[i].col);
      assert forall k :: 0 <= k < |tokens| ==> TokenOk(tokens[k], input, ofs, nextId, startLine, startCol);
    }

    /** Token::remove: the token is gone, the position stays. */
    method RemoveToken(id: nat)
      requires Valid()
      modifies this`tokens, this`buffers, this`current
      ensures Valid() && MarksOf(tokens) == Without(MarksOf(old(tokens)), id)
      ensures forall k :: 0 <= k < |old(tokens)| && Is(old(tokens)[k], id) ==> tokens == old(tokens)[..k] + old(tokens)[k + 1..]
    {
      var i := Find(id);
      if i < |tokens| {
        ForgetMark(tokens, i);
        RemoveAt(i);
      } else {
        WithoutNone(MarksOf(tokens), id);
      }
    }

    /** match_literal_str: speculative, so a failed match moves nothing. */
    method MatchString(s: string) returns (b: bool)
      requires Valid()
      modifies this
      ensures Valid() && old(ofs) <= |input|
      ensures b <==> s <= input[old(ofs)..]
      ensures ofs == (if b then old(ofs) + |s| else old(ofs)) && tokens == old(tokens) && nextId == old(nextId) + 1
    {
      var token := NewToken();
      var i := MatchOn(s);
      if i == |s| { Withdraw(token); } else { TakeBack(token); }
      return i == |s|;
    }

    /** The latest token is removed, or applied by its destructor. */
    method Withdraw(id: nat)
      requires Valid() && tokens != [] && Is(tokens[|tokens| - 1], id)
      modifies this`tokens, this`buffers, this`current
      ensures Valid() && tokens == old(tokens)[..|old(tokens)| - 1]
    {
      RemoveToken(id);
    }

    method TakeBack(id: nat)
      requires Valid() && tokens != [] && Is(tokens[|tokens| - 1], id)
      modifies this`ofs, this`line, this`col, this`cur, this`ebuf, this`current, this`tokens, this`buffers
      ensures Valid() && tokens == old(tokens)[..|old(tokens)| - 1] && ofs == old(tokens)[|old(tokens)| - 1].ofs
    {
      var _ := ApplyToken(id, true);
    }

    /** As far into `s` as the input goes along with it. */
    method MatchOn(s: string) returns (i: nat)
      requires Valid()
      modifies this`line, this`col, this`ofs, this`cur, this`ebuf, this`current, this`streamEof, this`read, this`buffers
      ensures Valid() && i <= |s| && ofs == old(ofs) + i <= |input|
      ensures i == |s| <==> s <= input[old(ofs)..]
    {
      i := 0;
      while i < |s| && cur != ebuf && s[i] == Here()
        invariant Valid() && i <= |s| && ofs == old(ofs) + i
        invariant s[..i] == input[old(ofs)..ofs]
      {
        HereIs();
        assert s[..i + 1] == s[..i] + [s[i]];
        assert input[old(ofs)..ofs + 1] == input[old(ofs)..ofs] + [input[ofs]];
        var _ := Advance();
        i := i + 1;
      }
      if cur != ebuf { HereIs(); }
      MatchEnds(input, old(ofs), s, i);
    }

    /** text_between, buffer by buffer. */
    method TextBetween(from: nat, to: nat) returns (result: string)
      requires Valid() && from <= to <= ofs
      requires from < read ==> buffers != [] && buffers[0].ofs <= from
      ensures ofs <= |input| && result == input[from..to]
    {
      FirstBufferIfAny();
      result := Gather(from, to);
    }

    method Gather(from: nat, to: nat) returns (result: string)
      requires Pieces(buffers, input, read) && from <= to <= read
      requires from < read ==> buffers != [] && buffers[0].ofs <= from
      ensures result == input[from..to]
    {
      result := "";
      var at := from;
      var i := 0;
      while i < |buffers| && at < to
        invariant i <= |buffers| && from <= at <= to && result == input[from..at]
        invariant at < to && i < |buffers| ==> buffers[i].ofs <= at
        invariant at < to && i == |buffers| ==> read <= at
      {
        var b := buffers[i];
        LastEnds(buffers, input, read, i);
        if at < End(b) || (at == 0 && End(b) == 0) {
          var part := TextIn(i, at, to);
          Joined(input, from, at, at + |part|);
          result := result + part;
          at := at + |part|;
        }
        i := i + 1;
      }
    }

    /** What buffer `i` has of it. */
    method TextIn(i: nat, at: nat, to: nat) returns (part: string)
      requires Pieces(buffers, input, read) && i < |buffers| && buffers[i].ofs <= at < to
      requires at < End(buffers[i]) || at == End(buffers[i]) == 0
      ensures at + |part| <= to && at + |part| <= |input| && part == input[at..at + |part|]
      ensures at + |part| == to || at + |part| == End(buffers[i])
    {
      var b := buffers[i];
      var start, left := at - b.ofs, End(b) - at;
      var todo := if to - at < left then to - at else left;
      PieceSlice(buffers, input, read, i, start, start + todo);
      part := b.text[start..start + todo];
    }

    /** Hold_Token::captured: the text since the token was made. */
    method CapturedText(id: nat) returns (r: Out)
      requires Valid()
      ensures ofs <= |input|
      ensures (forall k :: 0 <= k < |tokens| ==> !Is(tokens[k], id)) ==> r == Failed(NotLive)
      ensures forall k :: 0 <= k < |tokens| && Is(tokens[k], id) ==> tokens[k].ofs <= ofs && r == Text(input[tokens[k].ofs..ofs])
    {
      var i := Find(id);
      if i == |tokens| { return Failed(NotLive); }
      var text := TextBetween(tokens[i].ofs, ofs);
      return Text(text);
    }

    // -------------------------------------------------------- whole programs

    /** One operation; it answers, and leaves the cursor, as the flat one does. */
    method Do(op: Op) returns (r: Out)
      requires Valid()
      modifies this
      ensures Valid() && Inside(input, old(View()))
      ensures (View(), r) == FlatStep(input, old(View()), op)
    {
      match op
      case Next => r := DoNext();
      case Peek => ViewInside(); r := Peek();
      case Literal(c) => r := DoLiteral(c);
      case Str(s) => r := DoStr(s);
      case TextUntil(found) => r := DoTextUntil(found);
      case MakeToken => r := DoMakeToken();
      case Revert(id, inDestructor) => r := DoRevert(id, inDestructor);
      case Forget(id) => ViewInside(); RemoveToken(id); r := Done;
      case Captured(id) => r := DoCaptured(id);
    }

    lemma ViewInside()
      requires Valid()
      ensures Inside(input, View())
    {
    }

    method DoNext() returns (r: Out)
      requires Valid()
      modifies this`line, this`col, this`ofs, this`cur, this`ebuf, this`current, this`streamEof, this`read, this`buffers
      ensures Valid() && Inside(input, old(View())) && (View(), r) == FlatStep(input, old(View()), Next)
    {
      ViewInside();
      r := Advance();
    }

    method DoLiteral(c: char) returns (r: Out)
      requires Valid()
      modifies this`line, this`col, this`ofs, this`cur, this`ebuf, this`current, this`streamEof, this`read, this`buffers
      ensures Valid() && Inside(input, old(View())) && (View(), r) == FlatStep(input, old(View()), Literal(c))
    {
      ViewInside();
      var b := MatchLiteral(c);
      r := Matched(b);
    }

    method DoTextUntil(found: char -> bool) returns (r: Out)
      requires Valid()
      modifies this`line, this`col, this`ofs, this`cur, this`ebuf, this`current, this`streamEof, this`read, this`buffers
      ensures Valid() && Inside(input, old(View())) && (View(), r) == FlatStep(input, old(View()), TextUntil(found))
    {
      ViewInside();
      var text := MatchText(found);
      r := Text(text);
    }

    method DoStr(s: string) returns (r: Out)
      requires Valid()
      modifies this
      ensures Valid() && Inside(input, old(View())) && (View(), r) == FlatStep(input, old(View()), Str(s))
    {
      ViewInside();
      var b := MatchString(s);
      r := Matched(b);
    }

    method DoMakeToken() returns (r: Out)
      requires Valid()
      modifies this`tokens, this`nextId
      ensures Valid() && Inside(input, old(View()))
      ensures (View(), r) == FlatStep(input, old(View()), MakeToken)
    {
      var _ := NewToken();
      assert MarksOf(tokens) == old(MarksOf(tokens)) + [Mark(old(nextId), old(ofs), false)];
      r := Done;
    }

    method DoCaptured(id: nat) returns (r: Out)
      requires Valid()
      ensures Inside(input, View()) && (View(), r) == FlatStep(input, View(), Captured(id))
    {
      r := CapturedText(id);
      if Marked(MarksOf(tokens), id) {
        var k :| 0 <= k < |tokens| && Alive(MarksOf(tokens)[k], id);
        MarkIs(tokens, id, k);
      }
    }

    method DoRevert(id: nat, inDestructor: bool) returns (r: Out)
      requires Valid()
      modifies this
      ensures Valid() && Inside(input, old(View()))
      ensures (View(), r) == FlatStep(input, old(View()), Revert(id, inDestructor))
    {
      r := ApplyToken(id, inDestructor);
      RevertIs(input, old(ofs), old(tokens), nextId, id, inDestructor, ofs, tokens, r);
    }

    /** Any program, with its answers; line and column are those of the position. */
    method Run(ops: seq<Op>) returns (outs: seq<Out>)
      requires Valid()
      modifies this
      ensures Valid() && Inside(input, old(View()))
      ensures (View(), outs) == FlatRun(input, old(View()), ops)
      ensures IsPlace(input, ofs, startLine, startCol, line, col)
    {
      outs := [];
      var i := 0;
      while i < |ops|
        invariant i <= |ops| && Valid() && Inside(input, old(View()))
        invariant (View(), outs) == FlatRun(input, old(View()), ops[..i])
      {
        var out := Do(ops[i]);
        assert ops[..i + 1][..i] == ops[..i];
        outs := outs + [out];
        i := i + 1;
      }
      assert ops[..i] == ops;
      LineColIsPlace(input, ofs, startLine, startCol);
    }
  }

  /** The whole program, on input that is a memory region. */
  method RunInMemory(input: string, ops: seq<Op>) returns (outs: seq<Out>)
    ensures outs == FlatRun(input, Flat(0, [], 0), ops).1
  {
    var context := new ParseContext.FromMemory(input, 1, 1);
    outs := context.Run(ops);
  }

  /** The whole program, on input that comes in chunks of any size: the answers
      do not depend on the size. */
  method RunInChunks(input: string, chunkSize: nat, ops: seq<Op>) returns (outs: seq<Out>)
    requires chunkSize > 0
    ensures outs == FlatRun(input, Flat(0, [], 0), ops).1
  {
    var context := new ParseContext.FromStream(input, chunkSize);
    outs := context.Run(ops);
  }

  /** Where a token is in the list is where its mark is. */
  lemma MarkIs(tokens: seq<Token>, id: nat, k: nat)
    requires Ordered(tokens) && k < |tokens| && Is(tokens[k], id)
    ensures Marked(MarksOf(tokens), id) && PosOf(MarksOf(tokens), id) == tokens[k].ofs
  {
    assert MarksOf(tokens)[k] == Mark(id, tokens[k].ofs, false);
  }

  /** Where the loop of match_literal_str stops. */
  lemma MatchEnds(input: string, from: nat, s: string, i: nat)
    requires i <= |s| && from + i <= |input| && s[..i] == input[from..from + i]
    requires i < |s| && from + i < |input| ==> s[i] != input[from + i]
    ensures i == |s| <==> s <= input[from..]
  {
    assert i < |s| && from + i < |input| ==> s[i] != input[from..][i];
    assert i == |s| ==> s == s[..i];
  }

  lemma Joined(input: string, i: nat, j: nat, k: nat)
    requires i <= j <= k <= |input|
    ensures input[i..j] + input[j..k] == input[i..k]
  {
  }

  /** What ApplyToken does to the token list is what Revert does to the marks. */
  lemma RevertIs(input: string, ofs: nat, tokens: seq<Token>, nextId: nat, id: nat, inDestructor: bool, ofs': nat, tokens': seq<Token>, r: Out)
    requires Ordered(tokens) && Inside(input, Flat(ofs, MarksOf(tokens), nextId))
    requires (forall k :: 0 <= k < |tokens| ==> !Is(tokens[k], id)) ==> r == Done && ofs' == ofs && tokens' == tokens
    requires forall k :: 0 <= k < |tokens| && Is(tokens[k], id) ==>
                if k == |tokens| - 1 then r == Done && ofs' == tokens[k].ofs && tokens' == tokens[..k]
                else r == (if inDestructor then Done else Failed(NotLatest)) && ofs' == ofs && tokens' == tokens[k := tokens[k].(dead := true)]
    ensures (Flat(ofs', MarksOf(tokens'), nextId), r) == FlatStep(input, Flat(ofs, MarksOf(tokens), nextId), Revert(id, inDestructor))
  {
    if k: nat :| k < |tokens| && Is(tokens[k], id) {
      if k == |tokens| - 1 {
        RevertsLast(input, ofs, tokens, nextId, k, inDestructor);
      } else {
        RevertsEarlier(input, ofs, tokens, nextId, k, inDestructor);
        KilledAt(tokens, k);
      }
    } else {
      assert !Marked(MarksOf(tokens), id) by { NotMarked(tokens, id); }
    }
  }

  lemma RevertsLast(input: string, ofs: nat, tokens: seq<Token>, nextId: nat, k: nat, inDestructor: bool)
    requires Ordered(tokens) && Inside(input, Flat(ofs, MarksOf(tokens), nextId)) && k + 1 == |tokens| && !tokens[k].dead
    ensures FlatStep(input, Flat(ofs, MarksOf(tokens), nextId), Revert(tokens[k].id, inDestructor))
         == (Flat(tokens[k].ofs, MarksOf(tokens[..k]), nextId), Done)
  {
    MarkIs(tokens, tokens[k].id, k);
    assert MarksOf(tokens[..k]) == MarksOf(tokens)[..k];
  }

  lemma RevertsEarlier(input: string, ofs: nat, tokens: seq<Token>, nextId: nat, k: nat, inDestructor: bool)
    requires Ordered(tokens) && Inside(input, Flat(ofs, MarksOf(tokens), nextId)) && k + 1 < |tokens| && !tokens[k].dead
    ensures FlatStep(input, Flat(ofs, MarksOf(tokens), nextId), Revert(tokens[k].id, inDestructor))
         == (Flat(ofs, Kill(MarksOf(tokens), tokens[k].id), nextId), if inDestructor then Done else Failed(NotLatest))
  {
    MarkIs(tokens, tokens[k].id, k);
    assert tokens[k].id < tokens[|tokens| - 1].id;
  }

  lemma KilledAt(tokens: seq<Token>, k: nat)
    requires Ordered(tokens) && k < |tokens| && !tokens[k].dead
    ensures MarksOf(tokens[k := tokens[k].(dead := true)]) == Kill(MarksOf(tokens), tokens[k].id)
  {
  }

  lemma NotMarked(tokens: seq<Token>, id: nat)
    requires forall k :: 0 <= k < |tokens| ==> !Is(tokens[k], id)
    ensures !Marked(MarksOf(tokens), id)
  {
    assert forall k :: 0 <= k < |tokens| ==> Alive(MarksOf(tokens)[k], id) == Is(tokens[k], id);
  }

  /** A target at the end of a buffer is at the end of the last one. */
  lemma WholeIsRead(buffers: seq<Buffer>, input: string, read: nat, i: nat, target: nat)
    requires Pieces(buffers, input, read) && i < |buffers| && target == End(buffers[i])
    requires target < read ==> target < End(buffers[i])
    ensures target == read
  {
    LastEnds(buffers, input, read, i);
  }

  lemma DropOne(tokens: seq<Token>, i: nat, buffers: seq<Buffer>, read: nat)
    requires Ordered(tokens) && i < |tokens| && Buffered(tokens, buffers, read)
    ensures var rest := tokens[..i] + tokens[i + 1..]; Ordered(rest) && Buffered(rest, buffers, read)
    ensures var rest := tokens[..i] + tokens[i + 1..]; forall k :: 0 <= k < |rest| ==> rest[k] in tokens
  {
    var rest := tokens[..i] + tokens[i + 1..];
    assert forall k :: 0 <= k < |rest| ==> rest[k] == if k < i then tokens[k] else tokens[k + 1];
    if rest != [] && i == 0 { assert tokens[0].ofs <= tokens[1].ofs; }
  }

  lemma OnlyOne(tokens: seq<Token>, i: nat)
    requires Ordered(tokens) && i < |tokens|
    ensures forall k :: 0 <= k < |tokens| && Is(tokens[k], tokens[i].id) ==> k == i
  {
  }

  lemma PieceSlice(buffers: seq<Buffer>, input: string, read: nat, i: nat, lo: nat, hi: nat)
    requires Pieces(buffers, input, read) && i < |buffers| && lo <= hi <= |buffers[i].text|
    ensures buffers[i].ofs + hi <= |input| && buffers[i].text[lo..hi] == input[buffers[i].ofs + lo..buffers[i].ofs + hi]
  {
  }

  lemma ForgetMark(tokens: seq<Token>, i: nat)
    requires i < |tokens| && Ordered(tokens) && !tokens[i].dead
    ensures MarksOf(tokens[..i] + tokens[i + 1..]) == Without(MarksOf(tokens), tokens[i].id)
  {
    WithoutAt(MarksOf(tokens), i);
  }

  lemma {:induction false} WithoutAt(marks: seq<Mark>, i: nat)
    requires i < |marks| && !marks[i].dead && forall j, k :: 0 <= j < k < |marks| ==> marks[j].id != marks[k].id
    ensures Without(marks, marks[i].id) == marks[..i] + marks[i + 1..]
  {
    if i > 0 {
      WithoutAt(marks[1..], i - 1);
      assert marks[..i] == [marks[0]] + marks[1..][..i - 1];
      assert marks[i + 1..] == marks[1..][i..];
    }
  }

  lemma {:induction false} WithoutNone(marks: seq<Mark>, id: nat)
    requires !Marked(marks, id)
    ensures Without(marks, id) == marks
  {
    if marks != [] {
      assert !Alive(marks[0], id);
      assert !Marked(marks[1..], id) by { assert forall j :: 0 <= j < |marks| - 1 ==> marks[1..][j] == marks[j + 1]; }
      WithoutNone(marks[1..], id);
    }
  }

  lemma PieceAt(buffers: seq<Buffer>, input: string, read: nat, i: nat, k: nat)
    requires Pieces(buffers, input, read) && i < |buffers| && k < |buffers[i].text|
    ensures buffers[i].ofs + k < |input| && buffers[i].text[k] == input[buffers[i].ofs + k]
  {
  }

  lemma StillBuffered(tokens: seq<Token>, buffers: seq<Buffer>, input: string, read: nat)
    requires Pieces(buffers, input, read) && buffers != [] && Buffered(tokens, buffers, read)
    requires !(tokens != [] && tokens[0].ofs < End(buffers[0]))
    ensures Buffered(tokens, buffers[1..], read)
  {
  }

  lemma LastEnds(buffers: seq<Buffer>, input: string, read: nat, i: nat)
    requires Pieces(buffers, input, read) && i < |buffers|
    ensures End(buffers[i]) <= read && (i == |buffers| - 1 ==> End(buffers[i]) == read)
  {
  }
}
