/**
 The encrypted import table: block-wise XOR with a four-lane key (driver/crypt.c), a decoder for single
 entries, and the resolution that fills the table from the kernel's exports (driver/imports.c).

 A block is four 64-bit entries, one 256-bit register.
 */
module ImportCrypt {
  import opened Wrappers
  import opened Words

  /** The key's lane, lowest first: the register is set from the highest lane down. */
  function Key(lane: nat): Word {
    if lane == 0 then 0x66778899AABBCCDD
    else if lane == 1 then 0x5566778899AABBCC
    else if lane == 2 then 0x0011223344556677
    else 0x1122334455667788
  }

  /** The register's lanes are set from the highest down, so the first key named is the last lane's. */
  lemma KeyLanes()
    ensures [Key(3), Key(2), Key(1), Key(0)] ==
            [0x1122334455667788, 0x0011223344556677, 0x5566778899AABBCC, 0x66778899AABBCCDD]
  {
  }

  /** A 256-bit register as its four lanes. */
  datatype Block = Block(l0: Word, l1: Word, l2: Word, l3: Word)

  function Xored(b: Block): Block {
    Block(Xor(b.l0, Key(0)), Xor(b.l1, Key(1)), Xor(b.l2, Key(2)), Xor(b.l3, Key(3)))
  }

  /** Entries in whole blocks are combined with the key of their lane; a tail shorter than a block is left. */
  ghost function Encrypted(s: seq<Word>, entries: nat): seq<Word> {
    seq(|s|, i requires 0 <= i < |s| => if i < entries / 4 * 4 then Xor(s[i], Key(i % 4)) else s[i])
  }

  /** CryptEncryptImportsArray, in place. */
  method CryptEncryptImportsArray(a: array<Word>, entries: nat)
    requires entries <= a.Length
    modifies a
    ensures a[..] == Encrypted(old(a[..]), entries)
  {
    var blockCount := entries / 4;
    for block := 0 to blockCount
      invariant forall i :: 0 <= i < a.Length ==> a[i] == if i < block * 4 then Xor(old(a[i]), Key(i % 4)) else old(a[i])
    {
      EncryptBlock(a, block);
    }
  }

  /** Loading one block, combining it with the key and storing it back. */
  method EncryptBlock(a: array<Word>, block: nat)
    requires block * 4 + 4 <= a.Length
    modifies a
    ensures forall i :: 0 <= i < a.Length ==>
              a[i] == if block * 4 <= i < block * 4 + 4 then Xor(old(a[i]), Key(i % 4)) else old(a[i])
  {
    var base := block * 4;
    var xored := Xored(Block(a[base], a[base + 1], a[base + 2], a[base + 3]));
    a[base], a[base + 1], a[base + 2], a[base + 3] := xored.l0, xored.l1, xored.l2, xored.l3;
    forall i | base <= i < base + 4
      ensures a[i] == Xor(old(a[i]), Key(i % 4))
    {
      Lane(block, i - base);
    }
  }

  lemma Lane(block: nat, j: nat)
    requires j < 4
    ensures (block * 4 + j) % 4 == j
  {
  }

  lemma OneLess(x: nat, size: nat)
    requires size > 0 && x % size != 0
    ensures x > 0 && (x - 1) / size == x / size && (x - 1) % size == x % size - 1
  {
    var q, r := x / size, x % size;
    assert x - 1 == q * size + (r - 1);
    QuotientUnique(x - 1, size, q, r - 1);
  }

  lemma QuotientUnique(x: int, size: nat, q: int, r: int)
    requires size > 0 && x == q * size + r && 0 <= r < size && x >= 0
    ensures x / size == q && x % size == r
  {
    var d := x / size - q;
    assert d * size == r - x % size;
    assert d > 0 ==> d * size >= size;
    assert d < 0 ==> d * size <= 0 - size;
  }

  /** CryptFindContainingBlockForArrayIndex: the backwards search is division with remainder, for every block size. */
  method CryptFindContainingBlockForArrayIndex(entry: nat, blockSize: nat) returns (block: nat, sub: nat)
    requires blockSize > 0
    ensures block == entry / blockSize && sub == entry % blockSize
  {
    if entry < blockSize {
      QuotientUnique(entry, blockSize, 0, entry);
      return 0, entry;
    }
    if entry == blockSize {
      QuotientUnique(entry, blockSize, 1, 0);
      return 1, 0;
    }
    var containing := entry;
    sub := 0;
    while containing % blockSize != 0
      invariant containing / blockSize == entry / blockSize
      invariant containing % blockSize == entry % blockSize - sub
      decreases containing
    {
      OneLess(containing, blockSize);
      containing := containing - 1;
      sub := sub + 1;
    }
    block := containing / blockSize;
  }

  /** The entry the decoder returns: its containing block, read whole, and the lane selected from it. */
  ghost function Decrypted(s: seq<Word>, entry: nat): Word
    requires entry / 4 * 4 + 4 <= |s|
  {
    Xor(s[entry], Key(entry % 4))
  }

  /** CryptDecryptImportsArrayEntry; its count argument is not used. */
  method CryptDecryptImportsArrayEntry(a: array<Word>, entries: nat, entry: nat) returns (pointer: Word)
    requires entry / 4 * 4 + 4 <= a.Length
    ensures pointer == Decrypted(a[..], entry)
  {
    var block, sub := CryptFindContainingBlockForArrayIndex(entry, 4);
    var base := block * 4;
    assert entry == base + sub;
    var original := Xored(Block(a[base], a[base + 1], a[base + 2], a[base + 3]));
    if sub < 2 {
      pointer := if sub < 1 then original.l0 else original.l1;
    } else {
      pointer := if sub == 2 then original.l2 else original.l3;
    }
  }

  /**
   The decoder inverts the encoder exactly on the entries of whole blocks; an entry of a shorter tail
   comes back changed, even where its block can be read.
   */
  lemma DecryptsExactly(s: seq<Word>, entries: nat, entry: nat)
    requires entries <= |s| && entry / 4 * 4 + 4 <= |s|
    ensures Decrypted(Encrypted(s, entries), entry) == s[entry] <==> entry < entries / 4 * 4
  {
    var k := Key(entry % 4);
    XorTwice(s[entry], k);
    XorMoves(s[entry], k);
  }

  /** So every entry of a table whose length is a multiple of four comes back. */
  lemma RoundTrip(s: seq<Word>, entry: nat)
    requires |s| % 4 == 0 && entry < |s|
    ensures entry / 4 * 4 + 4 <= |s| && Decrypted(Encrypted(s, |s|), entry) == s[entry]
  {
    DecryptsExactly(s, |s|, entry);
  }

  // ----- resolution

  /** The kernel image's export directory, read as its three tables. */
  datatype Image = Image(base: Word, names: seq<string>, ordinals: seq<nat>, addresses: seq<Word>)

  predicate Readable(image: Image) {
    && |image.names| <= |image.ordinals|
    && forall i :: 0 <= i < |image.names| ==> image.ordinals[i] < |image.addresses|
  }

  /** `address` belongs to the first export called `name`. */
  ghost predicate ExportedAt(image: Image, name: string, address: Word)
    requires Readable(image)
  {
    exists k :: 0 <= k < |image.names| && image.names[k] == name &&
                (forall j :: 0 <= j < k ==> image.names[j] != name) &&
                address == (image.base + image.addresses[image.ordinals[k]]) % 0x1_0000_0000_0000_0000
  }

  ghost predicate Resolves(image: Option<Image>, name: string, address: Word)
    requires image.Some? ==> Readable(image.value)
  {
    if image.Some? && name in image.value.names then ExportedAt(image.value, name, address) else address == 0
  }

  /** ImpResolveNtImport; the image is absent if the kernel's module is not found. */
  method ImpResolveNtImport(image: Option<Image>, name: string) returns (address: Word)
    requires image.Some? ==> Readable(image.value)
    ensures Resolves(image, name, address)
  {
    if image.None? {
      return 0;
    }
    var i := image.value;
    for index := 0 to |i.names|
      invariant forall j :: 0 <= j < index ==> i.names[j] != name
    {
      if i.names[index] != name {
        continue;
      }
      var ordinal := i.ordinals[index];
      return Plus(i.base, i.addresses[ordinal]);
    }
    return 0;
  }

  /** A name has one address only. */
  lemma ResolvesOnce(image: Option<Image>, name: string, a: Word, b: Word)
    requires image.Some? ==> Readable(image.value)
    requires Resolves(image, name, a) && Resolves(image, name, b)
    ensures a == b
  {
    if image.Some? && name in image.value.names {
      var i := image.value;
      var k :| 0 <= k < |i.names| && i.names[k] == name && (forall j :: 0 <= j < k ==> i.names[j] != name) &&
               a == (i.base + i.addresses[i.ordinals[k]]) % 0x1_0000_0000_0000_0000;
      var l :| 0 <= l < |i.names| && i.names[l] == name && (forall j :: 0 <= j < l ==> i.names[j] != name) &&
               b == (i.base + i.addresses[i.ordinals[l]]) % 0x1_0000_0000_0000_0000;
      assert !(k < l) && !(l < k);
    }
  }

  /**
   ImpResolveDynamicImports: on success every index decodes to its name's address, and the padding
   entry, there to fill the last block, to what it was.  On failure the table is left in plain text up to the name
   that did not resolve.
   */
  method ImpResolveDynamicImports(imports: array<Word>, names: seq<string>, image: Option<Image>) returns (ok: bool)
    requires |names| == 79 && imports.Length == 80
    requires image.Some? ==> Readable(image.value)
    modifies imports
    ensures ok ==> forall i :: 0 <= i < 79 ==> Resolves(image, names[i], Decrypted(imports[..], i))
    ensures ok ==> forall i :: 0 <= i < 79 ==> Decrypted(imports[..], i) != 0
    ensures ok ==> Decrypted(imports[..], 79) == old(imports[79])
    ensures !ok ==>
              exists n :: 0 <= n < 79 && Resolves(image, names[n], 0) && imports[n] == 0 &&
                          (forall i :: 0 <= i < n ==> Resolves(image, names[i], imports[i]) && imports[i] != 0) &&
                          forall i :: n < i < 80 ==> imports[i] == old(imports[i])
  {
    for index := 0 to 79
      invariant forall i :: 0 <= i < index ==> Resolves(image, names[i], imports[i]) && imports[i] != 0
      invariant forall i :: index <= i < 80 ==> imports[i] == old(imports[i])
    {
      imports[index] := ImpResolveNtImport(image, names[index]);
      if imports[index] == 0 {
        return false;
      }
    }
    ghost var plain := imports[..];
    CryptEncryptImportsArray(imports, 80);
    forall i | 0 <= i < 80
      ensures Decrypted(imports[..], i) == plain[i]
    {
      RoundTrip(plain, i);
    }
    return true;
  }
}
