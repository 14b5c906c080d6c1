/** Setting up the initial user stack in steps: string addresses, the information
    block, the byte image, and the mapped pages. */
module ExecSetup {
  import opened Common
  import opened ExecStack

  /** The stack pointer a program starts with, and the pages mapped for it. */
  datatype Stack = Stack(sp: nat, pages: Pages)

  lemma {:induction false} SizeSplit(strings: seq<seq<Byte>>, k: nat)
    requires k <= |strings|
    ensures Size(strings) == Size(strings[..k]) + Size(strings[k..])
  {
    if k == 0 {
      assert strings[k..] == strings;
    } else {
      SizeSplit(strings[1..], k - 1);
      assert strings[..k][1..] == strings[1..][..k - 1] && strings[1..][k - 1..] == strings[k..];
    }
  }

  lemma SizeStep(strings: seq<seq<Byte>>, k: nat)
    requires k < |strings|
    ensures Size(strings[k..]) == |strings[k]| + 1 + Size(strings[k + 1..])
    ensures Size(strings[..k + 1]) == Size(strings[..k]) + |strings[k]| + 1
  {
    assert strings[k..][1..] == strings[k + 1..];
    SizeSplit(strings, k);
    SizeSplit(strings, k + 1);
  }

  lemma {:induction false} AddressAt(strings: seq<seq<Byte>>, k: nat)
    requires k < |strings|
    ensures Addresses(strings)[k] == STACK_END - Size(strings[k..])
  {
    if k == 0 {
      assert strings[k..] == strings;
    } else {
      AddressAt(strings[1..], k - 1);
      assert strings[1..][k - 1..] == strings[k..];
    }
  }

  /** The length of every string, with its terminator, and the size of all. */
  method StringLengths(strings: seq<seq<Byte>>) returns (lens: array<int>, total: nat)
    ensures fresh(lens) && lens.Length == |strings| && total == Size(strings)
    ensures forall j | 0 <= j < |strings| :: lens[j] == |strings[j]| + 1
  {
    assert Size(strings[..0]) == 0;
    hide Size;
    lens := new int[|strings|];
    total := 0;
    for i := 0 to |strings|
      invariant total == Size(strings[..i])
      invariant forall j | 0 <= j < i :: lens[j] == |strings[j]| + 1
    {
      SizeStep(strings, i);
      lens[i] := |strings[i]| + 1;
      total := total + lens[i];
    }
    assert strings[..|strings|] == strings;
  }

  /** The address of every string and the size of all: lengths first, then, from the
      last string down, each length replaced by an address. */
  method StringAddresses(strings: seq<seq<Byte>>) returns (addrs: array<int>, total: nat)
    ensures fresh(addrs) && addrs[..] == Addresses(strings) && total == Size(strings)
  {
    assert Size(strings[|strings|..]) == 0;
    hide Size, Addresses;
    addrs, total := StringLengths(strings);
    var va: int := STACK_END;
    for i := |strings| downto 0
      invariant va == STACK_END - Size(strings[i..])
      invariant forall j | 0 <= j < i :: addrs[j] == |strings[j]| + 1
      invariant forall j | i <= j < |strings| :: addrs[j] == STACK_END - Size(strings[j..])
    {
      SizeStep(strings, i);
      va := va - addrs[i];
      addrs[i] := va;
    }
    AreAddresses(strings, addrs[..]);
  }

  lemma AreAddresses(strings: seq<seq<Byte>>, addrs: seq<int>)
    requires |addrs| == |strings| && forall j | 0 <= j < |strings| :: addrs[j] == STACK_END - Size(strings[j..])
    ensures addrs == Addresses(strings)
  {
    forall k | 0 <= k < |strings| ensures addrs[k] == Addresses(strings)[k] { AddressAt(strings, k); }
  }

  /** Writes the strings into a zeroed buffer, from the last one down. */
  method WriteStrings(image: array<Byte>, strings: seq<seq<Byte>>)
    requires image[..] == Zeros(image.Length) && Size(strings) <= image.Length
    modifies image
    ensures image[..] == Zeros(image.Length - Size(strings)) + StringBytes(strings)
  {
    assert Size(strings[|strings|..]) == 0;
    hide Size;
    var cursor := image.Length;
    for i := |strings| downto 0
      invariant cursor == image.Length - Size(strings[i..]) && 0 <= cursor
      invariant image[..] == Zeros(cursor) + StringBytes(strings[i..])
    {
      ghost var before := image[..];
      SizeSplit(strings, i);
      SizeStep(strings, i);
      var s := strings[i];
      cursor := cursor - (|s| + 1);
      forall j | 0 <= j < |s| { image[cursor + j] := s[j]; }
      assert strings[i..][1..] == strings[i + 1..];
      StringWritten(before, image[..], cursor, s, StringBytes(strings[i + 1..]));
    }
    assert strings[0..] == strings;
  }

  /** The byte image: a zeroed buffer, the strings at its end, and the words at its start. */
  method WriteImage(strings: seq<seq<Byte>>, words: seq<int>, total: nat) returns (image: array<Byte>)
    requires WordSized(words) && Size(strings) + 8 * |words| <= total
    ensures fresh(image)
    ensures image[..] == WordBytes(words) + Zeros(total - Size(strings) - 8 * |words|) + StringBytes(strings)
  {
    image := new Byte[total](_ => 0);
    WriteStrings(image, strings);
    var bytes := WordBytes(words);
    ghost var before := image[..];
    forall j | 0 <= j < |bytes| { image[j] := bytes[j]; }
    assert image[..] == bytes + before[|bytes|..];
    assert before[|bytes|..] == Zeros(total - Size(strings) - |bytes|) + StringBytes(strings);
  }

  lemma StringWritten(before: seq<Byte>, after: seq<Byte>, at: nat, s: seq<Byte>, rest: seq<Byte>)
    requires before == Zeros(at + |s| + 1) + rest && |after| == |before|
    requires forall j | 0 <= j < |after| :: after[j] == if at <= j < at + |s| then s[j - at] else before[j]
    ensures after == Zeros(at) + (s + [0] + rest)
  {
  }

  function PagesFor(total: nat): nat { (total + PAGE_SIZE - 1) / PAGE_SIZE }

  /** Every address from `lo` to the stack end loads its byte of the image. */
  ghost predicate Mapped(pages: Pages, image: seq<Byte>, lo: int) {
    forall a | lo <= a < STACK_END && STACK_END - |image| <= a ::
      LoadByte(pages, a) == Some(image[a - (STACK_END - |image|)])
  }

  /** A page at `base` holds the image where the image reaches, and zeros below it. */
  ghost predicate Filled(page: seq<Byte>, image: seq<Byte>, base: nat) {
    && |page| == PAGE_SIZE
    && forall k | 0 <= k < PAGE_SIZE ::
         page[k] == if STACK_END - |image| <= base + k < STACK_END then image[base + k - (STACK_END - |image|)] else 0
  }

  /** Cuts the image into pages from the stack end down; the lowest page is padded with
      zeros below the image. */
  method MapPages(image: array<Byte>, frames: nat) returns (ok: bool, pages: Pages)
    requires image.Length <= STACK_SZ
    ensures ok <==> image.Length <= frames * PAGE_SIZE
    ensures ok ==> Mapped(pages, image[..], 0)
    ensures ok ==> forall b | b in pages :: STACK_END - STACK_SZ <= b < STACK_END && Filled(pages[b], image[..], b)
    ensures ok ==> |pages| == PagesFor(image.Length)
    ensures ok ==> forall b | b in pages :: STACK_END - image.Length < b + PAGE_SIZE
  {
    pages := map[];
    var total, n := image.Length, PagesFor(image.Length);
    for i := 0 to n
      invariant i <= frames && |pages| == i
      invariant forall b | b in pages :: STACK_END - total < b + PAGE_SIZE
      invariant Mapped(pages, image[..], STACK_END - i * PAGE_SIZE)
      invariant forall b | b in pages :: STACK_END - i * PAGE_SIZE <= b < STACK_END && Filled(pages[b], image[..], b)
    {
      if i == frames {
        return false, pages;
      }
      var end := total - i * PAGE_SIZE;
      var start := if end >= PAGE_SIZE then end - PAGE_SIZE else 0;
      var page := Zeros(PAGE_SIZE - (end - start)) + image[start..end];
      var base := STACK_END - (i + 1) * PAGE_SIZE;
      PageMapped(pages, image[..], i, page, start, end, base);
      PageFilled(image[..], page, start, end, base);
      pages := pages[base := page];
    }
    ok := true;
  }

  lemma PageFilled(image: seq<Byte>, page: seq<Byte>, start: nat, end: nat, base: nat)
    requires end <= |image| <= STACK_END && start == (if end >= PAGE_SIZE then end - PAGE_SIZE else 0)
    requires base + PAGE_SIZE == STACK_END - |image| + end
    requires page == Zeros(PAGE_SIZE - (end - start)) + image[start..end]
    ensures Filled(page, image, base)
  {
  }

  /** One more page, counted from the stack end, extends what is mapped. */
  lemma PageMapped(pages: Pages, image: seq<Byte>, i: nat, page: seq<Byte>, start: nat, end: nat, base: nat)
    requires Mapped(pages, image, STACK_END - i * PAGE_SIZE) && base == STACK_END - (i + 1) * PAGE_SIZE
    requires end == |image| - i * PAGE_SIZE && start == if end >= PAGE_SIZE then end - PAGE_SIZE else 0
    requires page == Zeros(PAGE_SIZE - (end - start)) + image[start..end]
    ensures Mapped(pages[base := page], image, STACK_END - (i + 1) * PAGE_SIZE)
  {
    var sp, after := STACK_END - |image|, pages[base := page];
    forall a | base <= a < STACK_END && sp <= a
      ensures LoadByte(after, a) == Some(image[a - sp])
    {
      PageOf(a, base, 0x8_0000_0000 - i - 1);
      if a >= base + PAGE_SIZE {
        assert LoadByte(pages, a) == Some(image[a - sp]);
      } else {
        assert page[a - base] == image[a - sp];
      }
    }
  }

  /** Rounding down to a page boundary does not cross one. */
  lemma PageOf(a: nat, base: nat, k: int)
    requires base == k * PAGE_SIZE && base <= a
    ensures a < base + PAGE_SIZE ==> a - a % PAGE_SIZE == base && a % PAGE_SIZE == a - base
    ensures a >= base + PAGE_SIZE ==> a - a % PAGE_SIZE >= base + PAGE_SIZE
  {
  }

  /** The information block, word by word, and the size of the strings. */
  method BuildInfo(argv: seq<seq<Byte>>, envp: seq<seq<Byte>>, auxv: seq<Word>)
    returns (info: seq<int>, stringSize: nat)
    ensures info == Info(argv, envp, auxv) && stringSize == Size(envp + argv)
  {
    var addrs;
    addrs, stringSize := StringAddresses(envp + argv);
    var argvAddrs, envpAddrs := addrs[|envp|..], addrs[..|envp|];
    var full := auxv + [AT_PAGESZ, PAGE_SIZE] + [AT_RANDOM, STACK_END - 0x10] + [AT_NULL, 0];
    assert full == FullAux(auxv);
    info := [|argv|] + (argvAddrs + [0]) + (envpAddrs + [0]) + full;
  }

  function RoundDown(x: int): (r: int)
    ensures r == x - x % 16 && r % 16 == 0
  {
    x - x % 16
  }

  /** Sets up the stack for a new program.  It is refused exactly when it would not fit
      or the pages run out; otherwise the stack pointer is 16-byte aligned and a reader
      that follows it finds argc, argv, envp and the auxiliary vector. */
  method SetupUserStack(argv: seq<seq<Byte>>, envp: seq<seq<Byte>>, auxv: seq<Word>, frames: nat)
    returns (r: Result<Stack>)
    ensures r == Err(TooLarge) <==> TotalSize(argv, envp, auxv) > STACK_SZ
    ensures r == Err(NoMemory) <==>
      frames * PAGE_SIZE < TotalSize(argv, envp, auxv) <= STACK_SZ
    ensures r.Err? ==> r.error in {TooLarge, NoMemory}
    ensures r.Ok? ==> r.value.sp == StackPointer(argv, envp, auxv)
    ensures r.Ok? ==> r.value.sp % 16 == 0 && STACK_END - STACK_SZ <= r.value.sp
    ensures r.Ok? ==> Holds(BytesOf(r.value.pages), r.value.sp, Image(argv, envp, auxv))
    ensures r.Ok? ==> forall b | b in r.value.pages ::
      STACK_END - STACK_SZ <= b < STACK_END && Filled(r.value.pages[b], Image(argv, envp, auxv), b)
    ensures r.Ok? && AuxPairs(auxv) && (forall i | 0 <= i < |argv| :: NulFree(argv[i]))
              && (forall i | 0 <= i < |envp| :: NulFree(envp[i])) ==>
      ReadStack(BytesOf(r.value.pages), r.value.sp) ==
        Some(Start(argv, envp, auxv + [AT_PAGESZ, PAGE_SIZE, AT_RANDOM, STACK_END - 0x10]))
  {
    hide ReadStack, Holds, Filled, Mapped, NulFree;
    var info, stringSize := BuildInfo(argv, envp, auxv);
    var unaligned := STACK_END - stringSize - 8 * |info|;
    var sp := RoundDown(unaligned);
    var total := STACK_END - sp;
    assert sp == StackPointer(argv, envp, auxv) && total == TotalSize(argv, envp, auxv);
    if total > STACK_SZ {
      return Err(TooLarge);
    }
    InfoInRange(argv, envp, auxv);
    var image := WriteImage(envp + argv, info, total);
    var ok, pages := MapPages(image, frames);
    if !ok {
      return Err(NoMemory);
    }
    r := Ok(Stack(sp, pages));
    Finish(argv, envp, auxv, sp, image[..], pages);
  }

  lemma Finish(argv: seq<seq<Byte>>, envp: seq<seq<Byte>>, auxv: seq<Word>, sp: nat, image: seq<Byte>, pages: Pages)
    requires TotalSize(argv, envp, auxv) <= STACK_SZ && sp == StackPointer(argv, envp, auxv)
    requires image == Image(argv, envp, auxv) && Mapped(pages, image, 0)
    ensures Holds(BytesOf(pages), sp, image)
    ensures AuxPairs(auxv) && (forall i | 0 <= i < |argv| :: NulFree(argv[i]))
              && (forall i | 0 <= i < |envp| :: NulFree(envp[i])) ==>
      ReadStack(BytesOf(pages), sp) ==
        Some(Start(argv, envp, auxv + [AT_PAGESZ, PAGE_SIZE, AT_RANDOM, STACK_END - 0x10]))
  {
    assert STACK_END - |image| == sp;
    forall i | 0 <= i < |image| ensures BytesOf(pages)(sp + i) == Some(image[i]) {
      assert LoadByte(pages, sp + i) == Some(image[sp + i - sp]);
    }
    if AuxPairs(auxv) && (forall i | 0 <= i < |argv| :: NulFree(argv[i]))
       && (forall i | 0 <= i < |envp| :: NulFree(envp[i])) {
      StackRoundTrip(BytesOf(pages), argv, envp, auxv);
    }
  }
}
