/** The hashes an archive stores, which its names are searched by. */
module ArchiveHashes {
  import opened Documents
  import opened BymlFormat
  import opened BymlTables
  import opened BymlReading
  import opened Archives
  import opened ArchiveFiles

  function Exp(base: nat, n: nat): nat {
    if n == 0 then 1 else base * Exp(base, n - 1)
  }

  /** A name's bytes as the digits of a number whose base is the key. */
  function Digits(name: string, key: nat): nat {
    if name == "" then 0 else name[0] as nat * Exp(key, |name| - 1) + Digits(name[1..], key)
  }

  lemma Factored(c: nat, power: nat, rest: nat, key: nat)
    ensures c * (key * power) + rest * key == (c * power + rest) * key
  {
  }

  lemma {:induction false} OneMoreDigit(name: string, key: nat, last: char)
    ensures Digits(name + [last], key) == Digits(name, key) * key + last as nat
    decreases |name|
  {
    var longer := name + [last];
    if name == "" {
      assert longer[1..] == "";
    } else {
      OneMoreDigit(name[1..], key, last);
      assert longer[1..] == name[1..] + [last] && longer[0] == name[0];
      Factored(name[0] as nat, Exp(key, |name| - 1), Digits(name[1..], key), key);
    }
  }

  lemma Wraps(x: nat, key: nat, c: nat)
    ensures (x % WORD * key + c) % WORD == (x * key + c) % WORD
  {
    var q, r := x / WORD, x % WORD;
    assert x == q * WORD + r;
    assert x * key == (q * key) * WORD + r * key by { Spread(q, WORD, r, key); }
    Multiple(r * key + c, q * key);
  }

  lemma Spread(q: nat, word: nat, r: nat, key: nat)
    ensures (q * word + r) * key == (q * key) * word + r * key
  {
  }

  lemma Multiple(a: nat, k: nat)
    ensures (a + k * WORD) % WORD == a % WORD
  {
  }

  /** A name's hash is that number, of which 32 bits are left. */
  lemma {:induction false} HashIsDigits(name: string, key: nat)
    ensures NameHash(name, key) == Digits(name, key) % WORD
    decreases |name|
  {
    if name != "" {
      var n := |name| - 1;
      HashIsDigits(name[..n], key);
      assert name == name[..n] + [name[n]];
      OneMoreDigit(name[..n], key, name[n]);
      Wraps(Digits(name[..n], key), key, name[n] as nat);
    }
  }

  /** The table of nodes has the hash of every file's name, and they increase. */
  lemma HashesStored(rules: Rules, files: map<string, Bytes>, key: nat, minimum: nat)
    requires Fair(rules) && minimum > 0 && InRange(NodesOf(rules, files, key, minimum), key)
    ensures var names, data := rules.arrange(files.Keys, key), Archive(NodesOf(rules, files, key, minimum), key);
            && (forall name :: name in names <==> name in files)
            && (forall i :: 0 <= i < |names| ==> WordAt(data, 0x20 + 16 * i, 4) == Some(Digits(names[i], key) % WORD))
            && (forall i, j :: 0 <= i < j < |names| ==> Digits(names[i], key) % WORD <= Digits(names[j], key) % WORD)
  {
    hide Archive, WordAt, FileAlignment, NameHash, InRange;
    var names, nodes := rules.arrange(files.Keys, key), NodesOf(rules, files, key, minimum);
    assert Lists(names, files.Keys) && ByHash(names, key);
    NodesHashed(nodes, key);
    forall i | 0 <= i < |names|
      ensures nodes[i].hash == NameHash(names[i], key) == Digits(names[i], key) % WORD
    {
      HashIsDigits(names[i], key);
    }
  }

  lemma NodesHashed(nodes: seq<Node>, key: nat)
    requires InRange(nodes, key)
    ensures Positive(nodes) && forall i :: 0 <= i < |nodes| ==> WordAt(Archive(nodes, key), 0x20 + 16 * i, 4) == Some(nodes[i].hash)
  {
    hide Archive, NodeThere, WordAt, NameTable;
    forall i | 0 <= i < |nodes|
      ensures WordAt(Archive(nodes, key), 0x20 + 16 * i, 4) == Some(nodes[i].hash)
    {
      NodesThere(nodes, key, i);
      HashThere(Archive(nodes, key), nodes, i, 40 + 16 * |nodes|, DataOffset(nodes));
    }
  }

  lemma HashThere(data: Bytes, nodes: seq<Node>, i: nat, names: nat, dataOffset: nat)
    requires i < |nodes| && NodeThere(data, nodes, i, names, dataOffset) && nodes[i].hash < WORD
    ensures WordAt(data, 0x20 + 16 * i, 4) == Some(nodes[i].hash)
  {
    hide Number, NumberAt, Reader.Number, Holds;
    Powers();
    var at := 0x20 + 16 * i;
    HoldsParts(data, at, Number(false, nodes[i].hash, 4) + Number(false, Flagged(NameOffset(nodes, i)), 4),
               Number(false, Start(nodes, i), 4), Number(false, End(nodes, i), 4));
    HoldsSplit(data, at, Number(false, nodes[i].hash, 4), Number(false, Flagged(NameOffset(nodes, i)), 4));
    NumberHeld(data, false, [], [], at, nodes[i].hash, 4);
  }
}
