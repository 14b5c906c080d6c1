/** The initial user stack: how argv, envp and the auxiliary vector are laid out below
    the stack end, and a System V reader that gets them back. */
module ExecStack {
  import opened Common

  type Word = x: int | 0 <= x < 0x1_0000_0000_0000_0000

  const STACK_END: nat := 0x0000_8000_0000_0000
  const STACK_SZ: nat := 0x2000 * 0x400

  const AT_NULL: Word := 0
  const AT_PAGESZ: Word := 6
  const AT_RANDOM: Word := 25

  // ------------------------------------------------------------------- layout

  /** Bytes taken by strings with their terminators. */
  function Size(strings: seq<seq<Byte>>): nat {
    if strings == [] then 0 else |strings[0]| + 1 + Size(strings[1..])
  }

  /** The strings in order, each ended by a zero byte. */
  function StringBytes(strings: seq<seq<Byte>>): (b: seq<Byte>)
    ensures |b| == Size(strings)
  {
    if strings == [] then [] else strings[0] + [0] + StringBytes(strings[1..])
  }

  /** Where each string starts when the last one ends at the stack end. */
  function Addresses(strings: seq<seq<Byte>>): (a: seq<int>)
    ensures |a| == |strings|
  {
    if strings == [] then [] else [STACK_END - Size(strings)] + Addresses(strings[1..])
  }

  function LittleEndian(w: nat, n: nat): (b: seq<Byte>)
    ensures |b| == n
  {
    if n == 0 then [] else [w % 256] + LittleEndian(w / 256, n - 1)
  }

  function WordBytes(words: seq<int>): (b: seq<Byte>)
    requires forall i | 0 <= i < |words| :: 0 <= words[i]
    ensures |b| == 8 * |words|
  {
    if words == [] then [] else LittleEndian(words[0], 8) + WordBytes(words[1..])
  }

  /** The auxiliary vector with the entries the stack adds. */
  function FullAux(auxv: seq<Word>): seq<int> {
    auxv + [AT_PAGESZ, PAGE_SIZE, AT_RANDOM, STACK_END - 0x10, AT_NULL, 0]
  }

  /** argc, the argv pointers, a null, the envp pointers, a null, the auxiliary vector. */
  function Block(argc: nat, args: seq<int>, envs: seq<int>, aux: seq<int>): (w: seq<int>)
    ensures |w| == 3 + |args| + |envs| + |aux|
  {
    [argc] + (args + [0]) + (envs + [0]) + aux
  }

  function Info(argv: seq<seq<Byte>>, envp: seq<seq<Byte>>, auxv: seq<Word>): (w: seq<int>)
    ensures |w| == 3 + |argv| + |envp| + |auxv| + 6
  {
    var addrs := Addresses(envp + argv);
    Block(|argv|, addrs[|envp|..], addrs[..|envp|], FullAux(auxv))
  }

  function StackPointer(argv: seq<seq<Byte>>, envp: seq<seq<Byte>>, auxv: seq<Word>): (sp: int) {
    var unaligned := STACK_END - Size(envp + argv) - 8 * |Info(argv, envp, auxv)|;
    unaligned - unaligned % 16
  }

  function TotalSize(argv: seq<seq<Byte>>, envp: seq<seq<Byte>>, auxv: seq<Word>): (n: nat)
    ensures n % 16 == 0
    ensures 0 <= n - (Size(envp + argv) + 8 * |Info(argv, envp, auxv)|) < 16
  {
    STACK_END - StackPointer(argv, envp, auxv)
  }

  function Zeros(n: nat): (z: seq<Byte>)
    ensures |z| == n
  {
    seq(n, _ => 0)
  }

  /** Every element is a 64-bit value. */
  ghost predicate WordSized(words: seq<int>) {
    forall i | 0 <= i < |words| :: 0 <= words[i] < 0x1_0000_0000_0000_0000
  }

  /** The stack from the stack pointer up: pointers, padding, strings. */
  function Image(argv: seq<seq<Byte>>, envp: seq<seq<Byte>>, auxv: seq<Word>): (b: seq<Byte>)
    requires TotalSize(argv, envp, auxv) <= STACK_SZ
    ensures |b| == TotalSize(argv, envp, auxv)
  {
    var info := Info(argv, envp, auxv);
    InfoInRange(argv, envp, auxv);
    WordBytes(info)
      + Zeros(TotalSize(argv, envp, auxv) - Size(envp + argv) - 8 * |info|)
      + StringBytes(envp + argv)
  }

  lemma {:induction false} AddressesInRange(strings: seq<seq<Byte>>)
    ensures forall i | 0 <= i < |strings| ::
      STACK_END - Size(strings) <= Addresses(strings)[i] < STACK_END
  {
    if strings != [] { AddressesInRange(strings[1..]); }
  }

  /** Every word of a stack that fits is a 64-bit value, and no pointer is null. */
  lemma InfoInRange(argv: seq<seq<Byte>>, envp: seq<seq<Byte>>, auxv: seq<Word>)
    requires TotalSize(argv, envp, auxv) <= STACK_SZ
    ensures WordSized(Info(argv, envp, auxv))
    ensures forall i | 0 <= i < |envp| + |argv| :: 0 < Addresses(envp + argv)[i] < STACK_END
  {
    AddressesInRange(envp + argv);
    var addrs := Addresses(envp + argv);
    AddressesSized(addrs, STACK_END - Size(envp + argv), |envp|);
    AuxSized(auxv);
    BlockSized(|argv|, addrs[|envp|..], addrs[..|envp|], FullAux(auxv));
  }

  lemma AddressesSized(addrs: seq<int>, lo: int, k: nat)
    requires 0 < lo && k <= |addrs| && forall i | 0 <= i < |addrs| :: lo <= addrs[i] < STACK_END
    ensures WordSized(addrs[k..]) && WordSized(addrs[..k])
  {
  }

  lemma AuxSized(auxv: seq<Word>)
    ensures WordSized(FullAux(auxv))
  {
  }

  lemma BlockSized(argc: nat, args: seq<int>, envs: seq<int>, aux: seq<int>)
    requires argc < 0x1_0000_0000_0000_0000 && WordSized(args) && WordSized(envs) && WordSized(aux)
    ensures WordSized(Block(argc, args, envs, aux))
  {
    assert WordSized([argc] + (args + [0]));
    assert WordSized([argc] + (args + [0]) + (envs + [0]));
  }

  // ------------------------------------------------------------------- reading

  /** Mapped pages by base address, each of PAGE_SIZE bytes. */
  type Pages = map<nat, seq<Byte>>

  function LoadByte(pages: Pages, a: int): Option<Byte> {
    if a < 0 then None
    else
      var base := a - a % PAGE_SIZE;
      if base in pages && |pages[base]| == PAGE_SIZE then Some(pages[base][a % PAGE_SIZE]) else None
  }

  /** Memory as a program sees it, byte by byte and word by word. */
  type Bytes = int -> Option<Byte>
  type Words = int -> Option<nat>

  function BytesOf(pages: Pages): Bytes { a => LoadByte(pages, a) }

  function WordsOf(mem: Bytes): Words { a => LoadNumber(mem, a, 8) }

  /** An `n`-byte little-endian number. */
  function LoadNumber(mem: Bytes, a: int, n: nat): Option<nat>
    decreases n
  {
    if n == 0 then Some(0)
    else
      var low :- mem(a);
      var high :- LoadNumber(mem, a + 1, n - 1);
      Some(low + 256 * high)
  }

  /** A zero-terminated string. */
  function LoadString(mem: Bytes, a: int): Option<seq<Byte>>
    decreases STACK_END - a
  {
    if a >= STACK_END then None
    else
      var b :- mem(a);
      if b == 0 then Some([])
      else
        var rest :- LoadString(mem, a + 1);
        Some([b] + rest)
  }

  function LoadStrings(mem: Bytes, ptrs: seq<nat>): Option<seq<seq<Byte>>> {
    if ptrs == [] then Some([])
    else
      var s :- LoadString(mem, ptrs[0]);
      var rest :- LoadStrings(mem, ptrs[1..]);
      Some([s] + rest)
  }

  /** `n` pointers, followed by a null. */
  function LoadPointers(mem: Words, a: int, n: nat): Option<seq<nat>>
    decreases n
  {
    var w :- mem(a);
    if n == 0 then (if w == 0 then Some([]) else None)
    else
      var rest :- LoadPointers(mem, a + 8, n - 1);
      Some([w] + rest)
  }

  /** Pointers up to the first null. */
  function LoadUntilNull(mem: Words, a: int): Option<seq<nat>>
    decreases STACK_END - a
  {
    if a >= STACK_END then None
    else
      var w :- mem(a);
      if w == 0 then Some([])
      else
        var rest :- LoadUntilNull(mem, a + 8);
        Some([w] + rest)
  }

  /** Auxiliary entries, key and value in turn, up to the key AT_NULL. */
  function LoadAux(mem: Words, a: int): Option<seq<nat>>
    decreases STACK_END - a
  {
    if a >= STACK_END then None
    else
      var key :- mem(a);
      var value :- mem(a + 8);
      if key == AT_NULL then Some([])
      else
        var rest :- LoadAux(mem, a + 16);
        Some([key, value] + rest)
  }

  datatype Start = Start(argv: seq<seq<Byte>>, envp: seq<seq<Byte>>, auxv: seq<nat>)

  /** The pointers and the auxiliary vector a program finds at its stack pointer. */
  function ReadBlock(mem: Words, sp: int): Option<(seq<nat>, seq<nat>, seq<nat>)> {
    var argc :- mem(sp);
    var args :- LoadPointers(mem, sp + 8, argc);
    var envBase := sp + 8 * (argc + 2);
    var envs :- LoadUntilNull(mem, envBase);
    var aux :- LoadAux(mem, envBase + 8 * (|envs| + 1));
    Some((args, envs, aux))
  }

  /** What a program finds at its initial stack pointer. */
  function ReadStack(mem: Bytes, sp: int): Option<Start> {
    var block :- ReadBlock(WordsOf(mem), sp);
    var argv :- LoadStrings(mem, block.0);
    var envp :- LoadStrings(mem, block.1);
    Some(Start(argv, envp, block.2))
  }

  // ------------------------------------------------------------- what is stored

  /** Memory holds `bytes` from address `a`. */
  ghost predicate Holds(mem: Bytes, a: int, bytes: seq<Byte>) {
    forall i | 0 <= i < |bytes| :: mem(a + i) == Some(bytes[i])
  }

  lemma HoldsPart(mem: Bytes, a: int, bytes: seq<Byte>, lo: nat, hi: nat)
    requires Holds(mem, a, bytes) && lo <= hi <= |bytes|
    ensures Holds(mem, a + lo, bytes[lo..hi])
  {
    forall i | 0 <= i < hi - lo ensures mem(a + lo + i) == Some(bytes[lo..hi][i]) {
      assert mem(a + (lo + i)) == Some(bytes[lo + i]);
    }
  }

  function Pow256(n: nat): nat { if n == 0 then 1 else 256 * Pow256(n - 1) }

  /** A little-endian number reads back as itself. */
  lemma {:induction false} NumberRoundTrip(mem: Bytes, a: int, w: nat, n: nat)
    requires w < Pow256(n) && Holds(mem, a, LittleEndian(w, n))
    ensures LoadNumber(mem, a, n) == Some(w)
    decreases n
  {
    if n != 0 {
      var b := LittleEndian(w, n);
      HoldsPart(mem, a, b, 1, n);
      assert b[1..n] == LittleEndian(w / 256, n - 1);
      NumberRoundTrip(mem, a + 1, w / 256, n - 1);
      assert mem(a + 0) == Some(b[0]);
    }
  }

  lemma Pow256Of8()
    ensures Pow256(8) == 0x1_0000_0000_0000_0000
  {
    assert Pow256(4) == 0x1_0000_0000;
  }

  /** Memory at `a` holds the words, one every eight bytes. */
  ghost predicate HoldsWords(mem: Words, a: int, words: seq<int>) {
    forall i | 0 <= i < |words| :: words[i] >= 0 && mem(a + 8 * i) == Some(words[i])
  }

  lemma {:induction false} WordsRoundTrip(mem: Bytes, view: Words, a: int, words: seq<int>)
    requires view == WordsOf(mem) && WordSized(words) && Holds(mem, a, WordBytes(words))
    ensures HoldsWords(view, a, words)
    decreases |words|
  {
    if words != [] {
      var b := WordBytes(words);
      assert b[0..8] == LittleEndian(words[0], 8) && b[8..|b|] == WordBytes(words[1..]);
      HoldsPart(mem, a, b, 0, 8);
      HoldsPart(mem, a, b, 8, |b|);
      assert view(a) == Some(words[0]) by {
        Pow256Of8();
        NumberRoundTrip(mem, a, words[0], 8);
      }
      WordsRoundTrip(mem, view, a + 8, words[1..]);
      HoldsWordsCons(view, a, words);
    }
  }

  lemma HoldsWordsCons(view: Words, a: int, words: seq<int>)
    requires words != [] && words[0] >= 0 && view(a) == Some(words[0]) && HoldsWords(view, a + 8, words[1..])
    ensures HoldsWords(view, a, words)
  {
    forall i | 0 <= i < |words| ensures words[i] >= 0 && view(a + 8 * i) == Some(words[i]) {
      if i > 0 { assert view(a + 8 + 8 * (i - 1)) == Some(words[1..][i - 1]); }
    }
  }

  ghost predicate NulFree(s: seq<Byte>) { forall i | 0 <= i < |s| :: s[i] != 0 }

  lemma {:induction false} StringRoundTrip(mem: Bytes, a: int, s: seq<Byte>)
    requires NulFree(s) && Holds(mem, a, s + [0]) && a + |s| < STACK_END
    ensures LoadString(mem, a) == Some(s)
    decreases |s|
  {
    var b := s + [0];
    assert mem(a + 0) == Some(b[0]);
    if s != [] {
      HoldsPart(mem, a, b, 1, |b|);
      assert b[1..|b|] == s[1..] + [0];
      StringRoundTrip(mem, a + 1, s[1..]);
      assert [s[0]] + s[1..] == s;
    }
  }

  /** Strings laid out up to the stack end are found at their addresses. */
  lemma {:induction false} StringsRoundTrip(mem: Bytes, strings: seq<seq<Byte>>)
    requires forall i | 0 <= i < |strings| :: NulFree(strings[i])
    requires Holds(mem, STACK_END - Size(strings), StringBytes(strings))
    ensures forall i | 0 <= i < |strings| :: LoadString(mem, Addresses(strings)[i]) == Some(strings[i])
    decreases |strings|
  {
    if strings != [] {
      var b, s := StringBytes(strings), strings[0];
      var a := STACK_END - Size(strings);
      assert b[0..|s| + 1] == s + [0] && b[|s| + 1..|b|] == StringBytes(strings[1..]);
      HoldsPart(mem, a, b, 0, |s| + 1);
      HoldsPart(mem, a, b, |s| + 1, |b|);
      StringRoundTrip(mem, a, s);
      StringsRoundTrip(mem, strings[1..]);
      forall i | 0 <= i < |strings| ensures LoadString(mem, Addresses(strings)[i]) == Some(strings[i]) {
        if i > 0 { assert Addresses(strings)[i] == Addresses(strings[1..])[i - 1]; }
      }
    }
  }

  lemma HoldsWordsPart(mem: Words, a: int, words: seq<int>, lo: nat, hi: nat)
    requires HoldsWords(mem, a, words) && lo <= hi <= |words|
    ensures HoldsWords(mem, a + 8 * lo, words[lo..hi])
  {
    forall i | 0 <= i < hi - lo ensures mem(a + 8 * lo + 8 * i) == Some(words[lo..hi][i]) {
      assert mem(a + 8 * (lo + i)) == Some(words[lo + i]);
    }
  }

  lemma {:induction false} PointersRoundTrip(mem: Words, a: int, ptrs: seq<int>)
    requires HoldsWords(mem, a, ptrs + [0])
    ensures LoadPointers(mem, a, |ptrs|) == Some(ptrs)
    decreases |ptrs|
  {
    var w := ptrs + [0];
    assert mem(a + 8 * 0) == Some(w[0]);
    if ptrs != [] {
      HoldsWordsPart(mem, a, w, 1, |w|);
      assert w[1..|w|] == ptrs[1..] + [0];
      PointersRoundTrip(mem, a + 8, ptrs[1..]);
      assert [ptrs[0]] + ptrs[1..] == ptrs;
    }
  }

  lemma {:induction false} NullTerminatedRoundTrip(mem: Words, a: int, ptrs: seq<int>)
    requires HoldsWords(mem, a, ptrs + [0]) && a + 8 * |ptrs| < STACK_END
    requires forall i | 0 <= i < |ptrs| :: ptrs[i] != 0
    ensures LoadUntilNull(mem, a) == Some(ptrs)
    decreases |ptrs|
  {
    var w := ptrs + [0];
    assert mem(a + 8 * 0) == Some(w[0]);
    if ptrs != [] {
      HoldsWordsPart(mem, a, w, 1, |w|);
      assert w[1..|w|] == ptrs[1..] + [0];
      NullTerminatedRoundTrip(mem, a + 8, ptrs[1..]);
      assert [ptrs[0]] + ptrs[1..] == ptrs;
    }
  }

  /** Keys and values in turn, with no key that would end the vector early. */
  ghost predicate AuxPairs(auxv: seq<int>) {
    |auxv| % 2 == 0 && forall i | 0 <= i < |auxv| && i % 2 == 0 :: auxv[i] != AT_NULL
  }

  lemma AuxPairsTail(aux: seq<int>)
    requires AuxPairs(aux) && aux != []
    ensures |aux| >= 2 && AuxPairs(aux[2..]) && aux[0] != AT_NULL
  {
    assert forall i | 0 <= i < |aux[2..]| :: aux[2..][i] == aux[i + 2];
  }

  lemma {:induction false} AuxRoundTrip(mem: Words, a: int, aux: seq<int>)
    requires AuxPairs(aux) && HoldsWords(mem, a, aux + [0, 0]) && a + 8 * |aux| < STACK_END
    ensures LoadAux(mem, a) == Some(aux)
    decreases |aux|
  {
    var w := aux + [0, 0];
    assert mem(a + 8 * 0) == Some(w[0]) && mem(a + 8 * 1) == Some(w[1]);
    if aux != [] {
      AuxPairsTail(aux);
      HoldsWordsPart(mem, a, w, 2, |w|);
      assert w[2..|w|] == aux[2..] + [0, 0];
      AuxRoundTrip(mem, a + 16, aux[2..]);
      assert [aux[0], aux[1]] + aux[2..] == aux;
    }
  }

  lemma {:induction false} LoadStringsOk(mem: Bytes, ptrs: seq<nat>, strings: seq<seq<Byte>>)
    requires |ptrs| == |strings|
    requires forall i | 0 <= i < |ptrs| :: LoadString(mem, ptrs[i]) == Some(strings[i])
    ensures LoadStrings(mem, ptrs) == Some(strings)
    decreases |ptrs|
  {
    if ptrs != [] {
      LoadStringsOk(mem, ptrs[1..], strings[1..]);
      assert [strings[0]] + strings[1..] == strings;
    }
  }

  lemma HoldsWordsConcat(mem: Words, a: int, x: seq<int>, y: seq<int>)
    requires HoldsWords(mem, a, x + y)
    ensures HoldsWords(mem, a, x) && HoldsWords(mem, a + 8 * |x|, y)
  {
    HoldsWordsPart(mem, a, x + y, |x|, |x + y|);
    assert (x + y)[|x|..] == y;
    forall i | 0 <= i < |x| ensures x[i] >= 0 && mem(a + 8 * i) == Some(x[i]) {
      assert (x + y)[i] == x[i];
    }
  }

  lemma BlockHolds(mem: Words, sp: int, args: seq<int>, envs: seq<int>, aux: seq<int>)
    requires HoldsWords(mem, sp, Block(|args|, args, envs, aux))
    ensures mem(sp) == Some(|args|) && HoldsWords(mem, sp + 8, args + [0])
    ensures HoldsWords(mem, sp + 8 * (|args| + 2), envs + [0])
    ensures HoldsWords(mem, sp + 8 * (|args| + |envs| + 3), aux)
  {
    var n := |args|;
    HoldsWordsConcat(mem, sp, [n] + (args + [0]) + (envs + [0]), aux);
    HoldsWordsConcat(mem, sp, [n] + (args + [0]), envs + [0]);
    HoldsWordsConcat(mem, sp, [n], args + [0]);
    assert mem(sp + 8 * 0) == Some([n][0]);
  }

  /** The pointers and the auxiliary vector are read back from their block. */
  lemma BlockRoundTrip(mem: Words, sp: int, args: seq<int>, envs: seq<int>, aux: seq<nat>)
    requires HoldsWords(mem, sp, Block(|args|, args, envs, aux + [0, 0])) && AuxPairs(aux)
    requires sp + 8 * (|args| + |envs| + |aux| + 5) <= STACK_END
    requires (forall i | 0 <= i < |args| :: args[i] >= 0) && forall i | 0 <= i < |envs| :: envs[i] > 0
    ensures ReadBlock(mem, sp) == Some((args, envs, aux))
  {
    var n, m := |args|, |envs|;
    BlockHolds(mem, sp, args, envs, aux + [0, 0]);
    PointersRoundTrip(mem, sp + 8, args);
    NullTerminatedRoundTrip(mem, sp + 8 * (n + 2), envs);
    AuxRoundTrip(mem, sp + 8 * (n + m + 3), aux);
  }

  /** The image starts with the information block and ends with the strings. */
  lemma ImageHolds(mem: Bytes, sp: int, argv: seq<seq<Byte>>, envp: seq<seq<Byte>>, auxv: seq<Word>)
    requires TotalSize(argv, envp, auxv) <= STACK_SZ && sp == StackPointer(argv, envp, auxv)
    requires Holds(mem, sp, Image(argv, envp, auxv))
    ensures WordSized(Info(argv, envp, auxv)) && Holds(mem, sp, WordBytes(Info(argv, envp, auxv)))
    ensures Holds(mem, STACK_END - Size(envp + argv), StringBytes(envp + argv))
  {
    InfoInRange(argv, envp, auxv);
    var info, strings := WordBytes(Info(argv, envp, auxv)), StringBytes(envp + argv);
    HoldsEnds(mem, sp, info, Zeros(TotalSize(argv, envp, auxv) - |strings| - |info|), strings);
  }

  lemma HoldsEnds(mem: Bytes, a: int, x: seq<Byte>, y: seq<Byte>, z: seq<Byte>)
    requires Holds(mem, a, x + y + z)
    ensures Holds(mem, a, x) && Holds(mem, a + |x| + |y|, z)
  {
    var all := x + y + z;
    HoldsPart(mem, a, all, 0, |x|);
    HoldsPart(mem, a, all, |x| + |y|, |all|);
    assert all[0..|x|] == x && all[|x| + |y|..|all|] == z;
  }

  lemma StringsAreRead(mem: Bytes, argv: seq<seq<Byte>>, envp: seq<seq<Byte>>, addrs: seq<int>)
    requires forall i | 0 <= i < |argv| :: NulFree(argv[i])
    requires forall i | 0 <= i < |envp| :: NulFree(envp[i])
    requires Holds(mem, STACK_END - Size(envp + argv), StringBytes(envp + argv)) && addrs == Addresses(envp + argv)
    requires forall i | 0 <= i < |addrs| :: 0 < addrs[i]
    ensures LoadStrings(mem, addrs[|envp|..]) == Some(argv) && LoadStrings(mem, addrs[..|envp|]) == Some(envp)
  {
    hide Addresses, StringBytes, LoadString, LoadStrings, Size, Holds;
    var strings := envp + argv;
    StringsRoundTrip(mem, strings);
    assert strings[|envp|..] == argv && strings[..|envp|] == envp;
    LoadPart(mem, addrs, addrs[|envp|..], strings, argv, |envp|);
    LoadPart(mem, addrs, addrs[..|envp|], strings, envp, 0);
  }

  lemma LoadPart(mem: Bytes, addrs: seq<int>, ptrs: seq<int>, strings: seq<seq<Byte>>, part: seq<seq<Byte>>, lo: nat)
    requires |addrs| == |strings| && lo + |part| <= |strings| && |ptrs| == |part|
    requires part == strings[lo..lo + |part|] && ptrs == addrs[lo..lo + |part|]
    requires forall i | 0 <= i < |addrs| :: 0 < addrs[i] && LoadString(mem, addrs[i]) == Some(strings[i])
    ensures (forall i | 0 <= i < |ptrs| :: 0 <= ptrs[i]) && LoadStrings(mem, ptrs) == Some(part)
  {
    assert forall i | 0 <= i < |ptrs| :: ptrs[i] == addrs[lo + i] && part[i] == strings[lo + i];
    LoadStringsOk(mem, ptrs, part);
  }

  /** Round trip: whatever memory holds the image at the stack pointer, a System V reader
      that starts there recovers argc, argv, envp and the auxiliary vector exactly. */
  lemma StackRoundTrip(mem: Bytes, argv: seq<seq<Byte>>, envp: seq<seq<Byte>>, auxv: seq<Word>)
    requires TotalSize(argv, envp, auxv) <= STACK_SZ && AuxPairs(auxv)
    requires forall i | 0 <= i < |argv| :: NulFree(argv[i])
    requires forall i | 0 <= i < |envp| :: NulFree(envp[i])
    requires Holds(mem, StackPointer(argv, envp, auxv), Image(argv, envp, auxv))
    ensures ReadStack(mem, StackPointer(argv, envp, auxv)) ==
      Some(Start(argv, envp, auxv + [AT_PAGESZ, PAGE_SIZE, AT_RANDOM, STACK_END - 0x10]))
  {
    hide Holds, HoldsWords, Image, LoadStrings, ReadBlock, StackPointer;
    var sp, addrs := StackPointer(argv, envp, auxv), Addresses(envp + argv);
    InfoInRange(argv, envp, auxv);
    ImageHolds(mem, sp, argv, envp, auxv);
    WordsRoundTrip(mem, WordsOf(mem), sp, Info(argv, envp, auxv));
    var aux: seq<nat> := auxv + [AT_PAGESZ, PAGE_SIZE, AT_RANDOM, STACK_END - 0x10];
    FullAuxPairs(auxv, aux);
    var args, envs := addrs[|envp|..], addrs[..|envp|];
    InfoIsBlock(argv, envp, auxv, args, envs, aux + [0, 0]);
    BlockRoundTrip(WordsOf(mem), sp, args, envs, aux);
    StringsAreRead(mem, argv, envp, addrs);
  }

  lemma FullAuxPairs(auxv: seq<Word>, aux: seq<nat>)
    requires AuxPairs(auxv) && aux == auxv + [AT_PAGESZ, PAGE_SIZE, AT_RANDOM, STACK_END - 0x10]
    ensures AuxPairs(aux) && aux + [0, 0] == FullAux(auxv)
  {
  }

  lemma InfoIsBlock(argv: seq<seq<Byte>>, envp: seq<seq<Byte>>, auxv: seq<Word>,
                    args: seq<int>, envs: seq<int>, aux: seq<int>)
    requires args == Addresses(envp + argv)[|envp|..] && envs == Addresses(envp + argv)[..|envp|]
    requires aux == FullAux(auxv)
    ensures |args| == |argv| && |envs| == |envp| && Info(argv, envp, auxv) == Block(|args|, args, envs, aux)
  {
  }
}
