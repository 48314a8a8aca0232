/**
  The stack that a new program starts on (process/load.c): argc, the argv pointers, two null pointers
  and, at the very end of region 1, the argument strings.  What the loader builds is proved to be what
  a program reads back by following its stack pointer.
 */
module ArgumentStack {
  import opened Hardware
  import Exec

  const POST_ARGV_NULL_SPACE: nat := 0x20
  const INITIAL_STACK_FRAME_SIZE: nat := 0

  /** Characters without the terminating zero. */
  type CString = s: seq<int> | forall i :: 0 <= i < |s| ==> 0 < s[i] < 256

  // ---------- layout ----------

  /** Bytes that the strings take, with their zeros. */
  function Size(args: seq<CString>): nat {
    if args == [] then 0 else Size(args[..|args| - 1]) + |args[|args| - 1]| + 1
  }

  /** Where the strings begin: cp. */
  function StringsStart(args: seq<CString>): int {
    REGION1_LIMIT - Size(args)
  }

  /** Where argc is: cpp, rounded down to a double word. */
  function WordsStart(args: seq<CString>): int {
    (StringsStart(args) - (|args| + 3 + POST_ARGV_NULL_SPACE) * WORD_SIZE) / 8 * 8
  }

  function StackPointer(args: seq<CString>): int {
    WordsStart(args) - INITIAL_STACK_FRAME_SIZE
  }

  /** stack_npg */
  function StackPagesFor(args: seq<CString>): int {
    (REGION1_LIMIT - DownToPage(StackPointer(args))) / PAGE_SIZE
  }

  function StringStart(args: seq<CString>, i: nat): int
    requires i <= |args|
  {
    StringsStart(args) + Size(args[..i])
  }

  /** The words start on a double-word boundary and end before the strings, with the room for nulls in
      between; everything lies in the stack pages, and no page is mapped for nothing. */
  lemma LayoutIsRight(args: seq<CString>)
    ensures WordsStart(args) % 8 == 0
    ensures var words := (|args| + 3 + POST_ARGV_NULL_SPACE) * WORD_SIZE;
      WordsStart(args) + words <= StringsStart(args) < WordsStart(args) + words + 8
    ensures StringsStart(args) <= REGION1_LIMIT
    ensures var first := REGION1_LIMIT - StackPagesFor(args) * PAGE_SIZE;
      first <= StackPointer(args) <= WordsStart(args) && StackPointer(args) < first + PAGE_SIZE
    ensures StackPagesFor(args) >= 1
  {
  }

  lemma {:induction false} SizeGrows(args: seq<CString>, i: nat, j: nat)
    requires i <= j <= |args|
    ensures Size(args[..i]) <= Size(args[..j])
    ensures i < j ==> Size(args[..i]) + |args[i]| + 1 <= Size(args[..j])
    decreases j
  {
    if i < j {
      SizeNext(args, j - 1);
      SizeGrows(args, i, j - 1);
    }
  }

  lemma SizeNext(args: seq<CString>, i: nat)
    requires i < |args|
    ensures Size(args[..i + 1]) == Size(args[..i]) + |args[i]| + 1
  {
    assert args[..i + 1][..i] == args[..i];
  }

  /** The strings follow each other without gap and end exactly at the end of the region. */
  lemma StringsFillUp(args: seq<CString>)
    ensures StringStart(args, 0) == StringsStart(args)
    ensures StringStart(args, |args|) == REGION1_LIMIT
    ensures forall i :: 0 <= i < |args| ==> StringStart(args, i + 1) == StringStart(args, i) + |args[i]| + 1
  {
    assert args[..|args|] == args;
    forall i | 0 <= i < |args|
      ensures Size(args[..i + 1]) == Size(args[..i]) + |args[i]| + 1
    {
      SizeNext(args, i);
    }
  }

  /** loadProgram's test lets a program in exactly when an unmapped page remains between data and stack. */
  lemma RoomIffPageBetween(args: seq<CString>, dataEnd: nat)
    ensures StackPagesFor(args) + dataEnd < TABLE_LEN <==> exists page :: InGap(args, dataEnd, page)
  {
    if StackPagesFor(args) + dataEnd < TABLE_LEN {
      assert InGap(args, dataEnd, dataEnd);
    }
  }

  /** The test lets in exactly the programs that exec can map, their text below their data; then the
      stack pages end at the limit and hold the new stack, and the list of words lies in region 1. */
  lemma PlanFitsExec(args: seq<CString>, text: nat, textPages: nat, data: nat, dataPages: nat)
    requires text + textPages <= data
    ensures StackPagesFor(args) >= 1
    ensures var l, end := Exec.Layout(text, textPages, data, dataPages, StackPagesFor(args)), data + dataPages;
      && (Exec.LayoutFits(l) <==> exists page :: InGap(args, end, page))
      && REGION1_LIMIT - DownToPage(StackPointer(args)) == PageAtIndex(l.stackPages)
      && (Exec.LayoutFits(l) ==> REGION1_BASE <= StackPointer(args) <= WordsStart(args) <= REGION1_LIMIT)
  {
    LayoutIsRight(args);
    RoomIffPageBetween(args, data + dataPages);
  }

  /** A whole page of region 1 behind the data and below the first stack page. */
  predicate InGap(args: seq<CString>, dataEnd: nat, page: int) {
    dataEnd <= page && PageAtIndex(page + 1) <= At(DownToPage(StackPointer(args)))
  }

  /** The first half of loadProgram: how large the arguments are, where the stack pointer goes and how
      many stack pages it needs; refused when data and stack would meet. */
  method PlanStack(args: seq<CString>, dataEnd: nat) returns (size: nat, sp: int, stackPages: int, ok: bool)
    ensures size == Size(args) && sp == StackPointer(args) && stackPages == StackPagesFor(args)
    ensures ok <==> exists page :: InGap(args, dataEnd, page)
    ensures ok ==> 0 <= At(WordsStart(args)) && stackPages + dataEnd < TABLE_LEN
  {
    size := 0;
    for i := 0 to |args|
      invariant size == Size(args[..i])
    {
      SizeNext(args, i);
      size := size + |args[i]| + 1;
    }
    assert args[..|args|] == args;
    var cp := REGION1_LIMIT - size;
    var cpp := (cp - (|args| + 3 + POST_ARGV_NULL_SPACE) * WORD_SIZE) / 8 * 8;
    sp := cpp - INITIAL_STACK_FRAME_SIZE;
    stackPages := (REGION1_LIMIT - DownToPage(sp)) / PAGE_SIZE;
    ok := stackPages + dataEnd < TABLE_LEN;
    RoomIffPageBetween(args, dataEnd);
  }

  // ---------- memory ----------

  function At(address: int): int {
    address - REGION1_BASE
  }

  /** The little-endian word at an index of memory. */
  function WordAt(m: seq<int>, a: nat): int
    requires a + WORD_SIZE <= |m|
  {
    m[a] + 0x100 * m[a + 1] + 0x1_0000 * m[a + 2] + 0x100_0000 * m[a + 3]
  }

  predicate StringAt(m: seq<int>, a: int, s: CString) {
    && 0 <= a && a + |s| < |m| && m[a + |s|] == 0
    && forall k :: 0 <= k < |s| ==> m[a + k] == s[k]
  }

  /** The first n arguments as strings one behind the other, from index a on. */
  predicate StringsAt(m: seq<int>, a: int, args: seq<CString>, n: nat)
    requires n <= |args|
  {
    forall i :: 0 <= i < n ==> StringAt(m, a + Size(args[..i]), args[i])
  }

  /** What the i-th word of the list is. */
  function ListWord(args: seq<CString>, i: nat): int {
    if i == 0 then |args| else if i <= |args| then StringStart(args, i - 1) else 0
  }

  predicate ListAt(m: seq<int>, args: seq<CString>, n: nat)
    requires 0 <= At(WordsStart(args)) && At(WordsStart(args)) + n * WORD_SIZE <= |m|
  {
    forall i :: 0 <= i < n ==> WordAt(m, At(WordsStart(args)) + i * WORD_SIZE) == ListWord(args, i)
  }

  /** What a program finds that starts with this memory and stack pointer. */
  function CStringFrom(m: seq<int>, a: nat): seq<int>
    requires a <= |m|
    decreases |m| - a
  {
    if a == |m| || m[a] == 0 then [] else [m[a]] + CStringFrom(m, a + 1)
  }

  lemma {:induction false} StringIsRead(m: seq<int>, a: nat, s: CString)
    requires StringAt(m, a, s)
    ensures CStringFrom(m, a) == s
    decreases |s|
  {
    if s != [] {
      assert m[a] == s[0];
      var rest: CString := s[1..];
      forall k | 0 <= k < |rest|
        ensures m[a + 1 + k] == rest[k]
      {
        assert m[a + (k + 1)] == s[k + 1];
      }
      StringIsRead(m, a + 1, rest);
    }
  }

  /** main's view of its arguments: argc from the stack pointer, then the string behind each argv[i];
      none if a pointer leads out of the region. */
  function Argc(m: seq<int>, sp: int): int
    requires |m| == REGION_SIZE && 0 <= At(sp) && At(sp) + WORD_SIZE <= REGION_SIZE
  {
    WordAt(m, At(sp))
  }

  function Argv(m: seq<int>, sp: int, i: nat): seq<int>
    requires |m| == REGION_SIZE && 0 <= At(sp) && At(sp) + (i + 2) * WORD_SIZE <= REGION_SIZE
  {
    var pointer := WordAt(m, At(sp) + (i + 1) * WORD_SIZE);
    if 0 <= At(pointer) < REGION_SIZE then CStringFrom(m, At(pointer)) else []
  }

  // ---------- building it ----------

  lemma BytesOfWord(v: int)
    requires 0 <= v < 0x1_0000_0000
    ensures v % 0x100 + 0x100 * (v / 0x100 % 0x100) + 0x1_0000 * (v / 0x1_0000 % 0x100)
      + 0x100_0000 * (v / 0x100_0000) == v
  {
    assert v / 0x100 / 0x100 == v / 0x1_0000 && v / 0x1_0000 / 0x100 == v / 0x100_0000;
  }

  method StoreWord(m: array<int>, a: nat, v: int)
    requires a + WORD_SIZE <= m.Length && 0 <= v < 0x1_0000_0000
    modifies m
    ensures WordAt(m[..], a) == v
    ensures forall i :: 0 <= i < m.Length && !(a <= i < a + WORD_SIZE) ==> m[i] == old(m[i])
  {
    BytesOfWord(v);
    var b0, b1, b2, b3 := v % 0x100, v / 0x100 % 0x100, v / 0x1_0000 % 0x100, v / 0x100_0000;
    m[a], m[a + 1], m[a + 2], m[a + 3] := b0, b1, b2, b3;
  }

  lemma StringEnds(m: seq<int>, a: int, s: CString, n: nat)
    requires StringAt(m, a, s) && n <= |s|
    ensures m[a + n] == 0 <==> n == |s|
    ensures n < |s| ==> m[a + n] == s[n]
  {
  }

  method StrLen(m: array<int>, a: nat, ghost s: CString) returns (n: nat)
    requires StringAt(m[..], a, s)
    ensures n == |s|
  {
    n := 0;
    while m[a + n] != 0
      invariant n <= |s|
      decreases |s| - n
    {
      StringEnds(m[..], a, s, n);
      n := n + 1;
    }
    StringEnds(m[..], a, s, n);
  }

  method StrCpy(to: array<int>, a: nat, from: array<int>, b: nat, ghost s: CString)
    requires to != from && StringAt(from[..], b, s) && a + |s| < to.Length
    modifies to
    ensures StringAt(to[..], a, s)
    ensures forall i :: 0 <= i < to.Length && !(a <= i <= a + |s|) ==> to[i] == old(to[i])
  {
    var n := 0;
    while from[b + n] != 0
      invariant 0 <= n <= |s|
      invariant forall k :: 0 <= k < n ==> to[a + k] == s[k]
      invariant forall i :: 0 <= i < to.Length && !(a <= i < a + n) ==> to[i] == old(to[i])
      decreases |s| - n
    {
      StringEnds(from[..], b, s, n);
      to[a + n] := from[b + n];
      n := n + 1;
    }
    StringEnds(from[..], b, s, n);
    to[a + n] := 0;
  }

  /** The copy of the arguments in the kernel, made before the old address space goes. */
  method SaveArguments(args: seq<CString>, size: nat) returns (argbuf: array<int>)
    requires size == Size(args)
    ensures fresh(argbuf) && argbuf.Length == Size(args) && StringsAt(argbuf[..], 0, args, |args|)
  {
    assert args[..|args|] == args;
    argbuf := new int[size];
    var cp2 := 0;
    for i := 0 to |args|
      invariant cp2 == Size(args[..i]) && StringsAt(argbuf[..], 0, args, i)
    {
      SizeGrows(args, i, |args|);
      SizeNext(args, i);
      ghost var before := argbuf[..];
      CopyIn(argbuf, cp2, args[i]);
      StringsKept(before, argbuf[..], 0, args, i);
      cp2 := cp2 + |args[i]| + 1;
    }
  }

  /** strcpy from the caller's own memory. */
  method CopyIn(to: array<int>, a: nat, s: CString)
    requires a + |s| < to.Length
    modifies to
    ensures StringAt(to[..], a, s)
    ensures forall i :: 0 <= i < to.Length && !(a <= i <= a + |s|) ==> to[i] == old(to[i])
  {
    for n := 0 to |s|
      invariant forall k :: 0 <= k < n ==> to[a + k] == s[k]
      invariant forall i :: 0 <= i < to.Length && !(a <= i < a + n) ==> to[i] == old(to[i])
    {
      to[a + n] := s[n];
    }
    to[a + |s|] := 0;
  }

  /** Writes elsewhere leave the strings. */
  lemma StringsKept(m: seq<int>, r: seq<int>, a: int, args: seq<CString>, n: nat)
    requires n <= |args| && StringsAt(m, a, args, n) && |r| == |m|
    requires forall i :: a <= i < a + Size(args[..n]) && 0 <= i < |m| ==> r[i] == m[i]
    ensures StringsAt(r, a, args, n)
  {
    forall i | 0 <= i < n
      ensures StringAt(r, a + Size(args[..i]), args[i])
    {
      SizeGrows(args, i, n);
    }
  }

  // ---------- the stack under construction ----------

  function Words(args: seq<CString>): int {
    At(WordsStart(args))
  }

  function Strings(args: seq<CString>): int {
    At(StringsStart(args))
  }

  /** The first w words of the list and the first n strings are there, the rest of the new stack is
      zero as far as the strings, and nothing below it has changed. */
  predicate BuiltTo(before: seq<int>, m: seq<int>, args: seq<CString>, w: nat, n: nat)
    requires 0 <= Words(args) && |before| == |m| == REGION_SIZE && w <= |args| + 3 && n <= |args|
  {
    LayoutIsRight(args);
    && ListAt(m, args, w)
    && StringsAt(m, Strings(args), args, n)
    && (forall i :: 0 <= i < Words(args) ==> m[i] == before[i])
    && (forall i :: Words(args) + w * WORD_SIZE <= i < Strings(args) ==> m[i] == 0)
  }

  /** Everything of the new stack. */
  predicate Built(before: seq<int>, m: seq<int>, args: seq<CString>)
    requires 0 <= Words(args) && |before| == |m| == REGION_SIZE
  {
    BuiltTo(before, m, args, |args| + 3, |args|)
  }

  lemma NothingYet(before: seq<int>, m: seq<int>, args: seq<CString>)
    requires 0 <= Words(args) && |before| == |m| == REGION_SIZE
    requires forall i :: 0 <= i < |m| ==> m[i] == if i < Words(args) then before[i] else 0
    ensures BuiltTo(before, m, args, 0, 0)
  {
    LayoutIsRight(args);
  }

  lemma OneMoreWord(before: seq<int>, m: seq<int>, r: seq<int>, args: seq<CString>, w: nat, n: nat)
    requires 0 <= Words(args) && |before| == |m| == |r| == REGION_SIZE && w < |args| + 3 && n <= |args|
    requires BuiltTo(before, m, args, w, n)
    requires var a := Words(args) + w * WORD_SIZE;
      && a + WORD_SIZE <= |r| && WordAt(r, a) == ListWord(args, w)
      && forall i :: 0 <= i < |m| && !(a <= i < a + WORD_SIZE) ==> r[i] == m[i]
    ensures BuiltTo(before, r, args, w + 1, n)
  {
    LayoutIsRight(args);
    StringsKept(m, r, Strings(args), args, n);
  }

  lemma OneMoreString(before: seq<int>, m: seq<int>, r: seq<int>, args: seq<CString>, w: nat, n: nat)
    requires 0 <= Words(args) && |before| == |m| == |r| == REGION_SIZE && w <= |args| + 3 && n < |args|
    requires BuiltTo(before, m, args, w, n)
    requires var a := Strings(args) + Size(args[..n]);
      && StringAt(r, a, args[n])
      && forall i :: 0 <= i < |m| && !(a <= i <= a + |args[n]|) ==> r[i] == m[i]
    ensures BuiltTo(before, r, args, w, n + 1)
  {
    hide WordAt, ListAt;
    LayoutIsRight(args);
    StringsKept(m, r, Strings(args), args, n);
    ListKept(m, r, args, w);
  }

  lemma ListKept(m: seq<int>, r: seq<int>, args: seq<CString>, w: nat)
    requires 0 <= Words(args) && Words(args) + w * WORD_SIZE <= |m| == |r| && ListAt(m, args, w)
    requires forall i :: 0 <= i < Words(args) + w * WORD_SIZE ==> r[i] == m[i]
    ensures ListAt(r, args, w)
  {
  }

  /** Where things are when argument n is being copied. */
  lemma PlaceOf(args: seq<CString>, n: nat)
    requires n < |args| && 0 <= Words(args)
    ensures var a := Words(args) + (n + 1) * WORD_SIZE;
      Words(args) < a && a + WORD_SIZE <= Strings(args) <= REGION_SIZE
    ensures ListWord(args, n + 1) == Strings(args) + Size(args[..n]) + REGION1_BASE
    ensures Strings(args) + Size(args[..n]) + |args[n]| < REGION_SIZE
    ensures Size(args[..n + 1]) == Size(args[..n]) + |args[n]| + 1
    ensures Strings(args) <= ListWord(args, n + 1) < 0x1_0000_0000
  {
    LayoutIsRight(args);
    SizeGrows(args, n, |args|);
    SizeNext(args, n);
    assert args[..|args|] == args;
  }

  /** One round of the loop that fills the list: the pointer, and the string that it points to. */
  method CopyArgument(m: array<int>, argbuf: array<int>, cpp: int, cp: int, cp2: nat,
      ghost before: seq<int>, ghost args: seq<CString>, ghost n: nat)
      returns (cpp': int, cp': int, cp2': nat)
    requires m.Length == REGION_SIZE == |before| && 0 <= Words(args) && m != argbuf && n < |args|
    requires argbuf.Length == Size(args) && StringsAt(argbuf[..], 0, args, |args|)
    requires cpp == Words(args) + (n + 1) * WORD_SIZE && cp2 == Size(args[..n]) && cp == Strings(args) + cp2
    requires BuiltTo(before, m[..], args, n + 1, n)
    modifies m
    ensures BuiltTo(before, m[..], args, n + 2, n + 1)
    ensures cpp' == cpp + WORD_SIZE && cp2' == Size(args[..n + 1]) && cp' == Strings(args) + cp2'
  {
    hide ListWord, BuiltTo, Size, WordsStart, StringsStart, WordAt;
    PlaceOf(args, n);
    ghost var s := args[n];
    assert StringAt(argbuf[..], 0 + Size(args[..n]), s);
    ghost var m0 := m[..];
    StoreWord(m, cpp, cp + REGION1_BASE);
    cpp' := cpp + WORD_SIZE;
    OneMoreWord(before, m0, m[..], args, n + 1, n);
    m0 := m[..];
    StrCpy(m, cp, argbuf, cp2, s);
    OneMoreString(before, m0, m[..], args, n + 2, n);
    var copied := StrLen(m, cp, s);
    cp' := cp + copied + 1;
    var length := StrLen(argbuf, cp2, s);
    cp2' := cp2 + length + 1;
  }

  /** The end of loadProgram: memset, then the list of words and the strings through cpp, cp and cp2. */
  method BuildArguments(m: array<int>, argbuf: array<int>, argcount: nat, ghost args: seq<CString>)
    requires m.Length == REGION_SIZE && 0 <= Words(args) && m != argbuf
    requires argcount == |args| && argbuf.Length == Size(args) && StringsAt(argbuf[..], 0, args, |args|)
    modifies m
    ensures Built(old(m[..]), m[..], args)
  {
    hide BuiltTo, WordAt, StringsAt;
    var size := argbuf.Length;
    var cp := At(REGION1_LIMIT - size);
    var cpp := At((REGION1_LIMIT - size - (argcount + 3 + POST_ARGV_NULL_SPACE) * WORD_SIZE) / 8 * 8);
    ghost var before := m[..];
    LayoutIsRight(args);
    ClearFrom(m, cpp);
    NothingYet(before, m[..], args);
    ghost var m0 := m[..];
    StoreWord(m, cpp, argcount);
    OneMoreWord(before, m0, m[..], args, 0, 0);
    cpp := cpp + WORD_SIZE;
    var cp2 := 0;
    for i := 0 to argcount
      invariant cpp == Words(args) + (i + 1) * WORD_SIZE && cp2 == Size(args[..i]) && cp == Strings(args) + cp2
      invariant BuiltTo(before, m[..], args, i + 1, i)
    {
      cpp, cp, cp2 := CopyArgument(m, argbuf, cpp, cp, cp2, before, args, i);
    }
    m0 := m[..];
    StoreWord(m, cpp, 0);
    OneMoreWord(before, m0, m[..], args, argcount + 1, argcount);
    cpp := cpp + WORD_SIZE;
    m0 := m[..];
    StoreWord(m, cpp, 0);
    OneMoreWord(before, m0, m[..], args, argcount + 2, argcount);
  }

  /** memset */
  method ClearFrom(m: array<int>, a: nat)
    requires a <= m.Length
    modifies m
    ensures forall i :: 0 <= i < m.Length ==> m[i] == if i < a then old(m[i]) else 0
  {
    for i := a to m.Length
      invariant forall k :: 0 <= k < m.Length ==> m[k] == if a <= k < i then 0 else old(m[k])
    {
      m[i] := 0;
    }
  }

  // ---------- what the new program finds ----------

  lemma ListSays(m: seq<int>, args: seq<CString>, w: nat, i: nat)
    requires 0 <= Words(args) && Words(args) + w * WORD_SIZE <= |m| && ListAt(m, args, w) && i < w
    ensures WordAt(m, Words(args) + i * WORD_SIZE) == ListWord(args, i)
  {
  }

  lemma StringSays(m: seq<int>, a: int, args: seq<CString>, n: nat, i: nat)
    requires i < n <= |args| && StringsAt(m, a, args, n)
    ensures StringAt(m, a + Size(args[..i]), args[i])
  {
  }

  /** Main result: following its stack pointer the program finds exactly the arguments of the exec call. */
  lemma ProgramReadsItsArguments(before: seq<int>, m: seq<int>, args: seq<CString>)
    requires 0 <= Words(args) && |before| == |m| == REGION_SIZE && Built(before, m, args)
    ensures At(StackPointer(args)) + (|args| + 3) * WORD_SIZE <= REGION_SIZE
    ensures Argc(m, StackPointer(args)) == |args|
    ensures forall i :: 0 <= i < |args| ==> Argv(m, StackPointer(args), i) == args[i]
    ensures WordAt(m, At(StackPointer(args)) + (|args| + 1) * WORD_SIZE) == 0
    ensures WordAt(m, At(StackPointer(args)) + (|args| + 2) * WORD_SIZE) == 0
  {
    hide StringAt, StringsAt, Size, WordAt, ListAt;
    LayoutIsRight(args);
    forall i | 0 <= i < |args|
      ensures Argv(m, StackPointer(args), i) == args[i]
    {
      PlaceOf(args, i);
      var a := Strings(args) + Size(args[..i]);
      ListSays(m, args, |args| + 3, i + 1);
      StringSays(m, Strings(args), args, |args|, i);
      StringIsRead(m, a, args[i]);
    }
    ListSays(m, args, |args| + 3, 0);
    ListSays(m, args, |args| + 3, |args| + 1);
    ListSays(m, args, |args| + 3, |args| + 2);
  }
}
