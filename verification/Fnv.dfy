/** The hash of the configuration map, and two keys that it sends to the same slot. */
module Fnv {

  /** fnv1a: the arithmetic is modulo 2^32, and characters are bytes. */
  function Fnv1a(key: string): nat {
    Mix(key, 2166136261)
  }

  function Mix(key: string, h: nat): nat {
    if key == "" then h else Mix(key[1..], Round(h, key[0] as nat % 256))
  }

  /** One byte: exclusive or into the low byte, then the multiplication. */
  function Round(h: nat, c: nat): nat
    requires c < 256
  {
    (h - h % 256 + Xor(h % 256, c)) * 16777619 % 0x1_0000_0000
  }

  function Xor(a: nat, b: nat): nat
    requires a < 256 && b < 256
  {
    ((a as bv8) ^ (b as bv8)) as nat
  }

  lemma Xors()
    ensures Xor(197, 33) == 228 && Xor(197, 97) == 164
  {
  }

  lemma RoundBang()
    ensures Round(2166136261, 33) == 604802540
  {
    Xors();
    assert 2166136261 % 256 == 197;
  }

  lemma RoundLetter()
    ensures Round(2166136261, 97) == 3826002220
  {
    Xors();
    assert 2166136261 % 256 == 197;
  }

  lemma MixOne(key: string, h: nat, c: nat)
    requires |key| == 1 && c == key[0] as nat % 256
    ensures Mix(key, h) == Round(h, c)
  {
    assert key[1..] == "";
    assert Mix(key[1..], Round(h, c)) == Round(h, c);
  }

  lemma OneCharacter(key: string, c: nat)
    requires |key| == 1 && c == key[0] as nat % 256
    ensures Fnv1a(key) == Round(2166136261, c)
  {
    MixOne(key, 2166136261, c);
  }

  lemma BangHome(bang: string)
    requires bang == "!"
    ensures Fnv1a(bang) % 64 == 44
  {
    OneCharacter(bang, 33);
    RoundBang();
  }

  lemma LetterHome(letter: string)
    requires letter == "a"
    ensures Fnv1a(letter) % 64 == 44
  {
    OneCharacter(letter, 97);
    RoundLetter();
  }

  /** In a table of 64 slots "!" and "a" have the same home. */
  lemma SameHome(bang: string, letter: string)
    requires bang == "!" && letter == "a"
    ensures Fnv1a(bang) % 64 == 44 && Fnv1a(letter) % 64 == 44
  {
    BangHome(bang);
    LetterHome(letter);
  }
}
