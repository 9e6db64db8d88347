/**
The file-backed secret store (apps/shell/src/main/secret-store.ts, fileImpl).

A vault file is base64 text whose bytes are lines `key=value`, each value the base64 form of the
UTF-8 form of the secret XORed with the machine key. A JavaScript object used as a dictionary is a
map of its own properties, with two departures: assigning a string to `__proto__` creates no
property, and looking up an absent name may find one that every object inherits.
*/
module SecretVault {
  import opened Common
  import opened Units
  import opened TextCodings

  const EQUALS: Unit := 0x3D
  const NEWLINE: Unit := 0x0A

  function Ascii(s: string): Text {
    seq(|s|, i requires 0 <= i < |s| => (s[i] as int % 128) as Unit)
  }

  const PROTO: Text := Ascii("__proto__")

  /** The properties every object inherits from Object.prototype. */
  const INHERITED: set<Text> := {
    PROTO, Ascii("constructor"), Ascii("toString"), Ascii("toLocaleString"), Ascii("valueOf"),
    Ascii("hasOwnProperty"), Ascii("isPrototypeOf"), Ascii("propertyIsEnumerable"),
    Ascii("__defineGetter__"), Ascii("__defineSetter__"), Ascii("__lookupGetter__"), Ascii("__lookupSetter__")}

  type Vault = map<Text, Text>

  /** The machine key is a lower-case hexadecimal digest; all that matters is that it is 7-bit. */
  ghost predicate MachineKey(key: Text) {
    key != [] && forall i :: 0 <= i < |key| ==> SevenBit(key[i])
  }

  function Xor(s: Text, key: Text): (r: Text)
    requires key != []
    ensures |r| == |s|
  {
    seq(|s|, i requires 0 <= i < |s| => Mix(s[i], key[i % |key|]))
  }

  function Assign(vault: Vault, k: Text, v: Text): Vault {
    if k == PROTO then vault else vault[k := v]
  }

  // ---- printing ----

  function Line(entry: (Text, Text), key: Text): Text
    requires key != []
  {
    entry.0 + [EQUALS] + ToBase64(Encode(Xor(entry.1, key)))
  }

  function Lines(entries: seq<(Text, Text)>, key: Text): seq<Text>
    requires key != []
  {
    if entries == [] then [] else [Line(entries[0], key)] + Lines(entries[1..], key)
  }

  function Join(lines: seq<Text>): Text {
    if lines == [] then []
    else if |lines| == 1 then lines[0]
    else lines[0] + [NEWLINE] + Join(lines[1..])
  }

  /** The bytes writeVault puts in the file for an object whose entries come in this order. */
  function Print(entries: seq<(Text, Text)>, key: Text): Bytes
    requires key != []
  {
    Encode(ToBase64(Encode(Join(Lines(entries, key)))))
  }

  // ---- parsing ----

  function Split(text: Text): (lines: seq<Text>)
    ensures lines != []
  {
    if text == [] then [[]]
    else
      var rest := Split(text[1..]);
      if text[0] == NEWLINE then [[]] + rest else [[text[0]] + rest[0]] + rest[1..]
  }

  function IndexOfEquals(line: Text): (i: Option<nat>)
    ensures i.Some? ==> i.value < |line| && line[i.value] == EQUALS && EQUALS !in line[..i.value]
    ensures i.None? ==> EQUALS !in line
  {
    if line == [] then None
    else if line[0] == EQUALS then Some(0)
    else match IndexOfEquals(line[1..])
         case None => None
         case Some(i) => assert line[..i + 1] == [line[0]] + line[1..][..i]; Some(i + 1)
  }

  function ParseLine(line: Text, key: Text): Option<(Text, Text)>
    requires key != []
  {
    match IndexOfEquals(line)
    case None => None
    case Some(i) =>
      if i == 0 then None
      else Some((line[..i], Xor(Decode(FromBase64(line[i + 1..])), key)))
  }

  function ParseLines(lines: seq<Text>, key: Text, vault: Vault): Vault
    requires key != []
  {
    if lines == [] then vault
    else
      ParseLines(lines[1..], key,
                 match ParseLine(lines[0], key)
                 case None => vault
                 case Some(entry) => Assign(vault, entry.0, entry.1))
  }

  /** What readVault makes of a file, present or absent, sound or corrupt. */
  function Read(file: Option<Bytes>, key: Text): Vault
    requires key != []
  {
    match file
    case None => map[]
    case Some(bytes) => ParseLines(Split(Decode(FromBase64(Decode(bytes)))), key, map[])
  }

  // ---- XOR with a 7-bit key ----

  /** The same units are high and low surrogates. */
  ghost predicate SameSurrogates(s: Text, t: Text) {
    && |s| == |t|
    && (forall i :: 0 <= i < |s| ==> IsHigh(s[i]) == IsHigh(t[i]))
    && (forall i :: 0 <= i < |s| ==> IsLow(s[i]) == IsLow(t[i]))
  }

  lemma SameSurrogatesWellFormed(s: Text, t: Text)
    requires SameSurrogates(s, t)
    ensures WellFormed(s) <==> WellFormed(t)
  {
    hide IsHigh, IsLow;
  }

  lemma XorAt(s: Text, key: Text, i: nat)
    requires MachineKey(key) && i < |s|
    ensures var t := Xor(s, key);
            Xor(t, key)[i] == s[i] && IsHigh(t[i]) == IsHigh(s[i]) && IsLow(t[i]) == IsLow(s[i])
  {
    hide IsHigh, IsLow, Mix, SevenBit;
    XorUnit(s[i], key[i % |key|]);
  }

  /** XOR with the machine key undoes itself and moves no unit in or out of the surrogates. */
  lemma XorSurvives(s: Text, key: Text)
    requires MachineKey(key)
    ensures Xor(Xor(s, key), key) == s
    ensures WellFormed(Xor(s, key)) <==> WellFormed(s)
  {
    hide IsHigh, IsLow, Xor, WellFormed;
    var t := Xor(s, key);
    forall i: nat | i < |s|
      ensures Xor(t, key)[i] == s[i] && IsHigh(t[i]) == IsHigh(s[i]) && IsLow(t[i]) == IsLow(s[i])
    {
      XorAt(s, key, i);
    }
    SameSurrogatesWellFormed(s, t);
  }

  // ---- what the XOR does, bit by bit ----

  /** Each single bit of a unit is set after the XOR exactly when it is set in one of the unit and its key unit; the
      key is repeated as often as needed. So a unit stays as it is exactly where the key unit is zero. */
  lemma XorBitByBit(s: Text, key: Text, i: nat)
    requires key != [] && i < |s|
    ensures forall m :: OneBit(m) ==> (HasBit(Xor(s, key)[i], m) <==> HasBit(s[i], m) != HasBit(key[i % |key|], m))
    ensures Xor(s, key)[i] == s[i] <==> key[i % |key|] == 0
  {
    hide HasBit, Mix, OneBit;
    forall m | OneBit(m)
      ensures HasBit(Xor(s, key)[i], m) <==> HasBit(s[i], m) != HasBit(key[i % |key|], m)
    {
      MixBits(s[i], key[i % |key|], m);
    }
    MixKeeps(s[i], key[i % |key|]);
  }

  /** What stands in the file for a well-formed secret: after the key and the first '=' the base64 of the
      UTF-8 of a text that is the secret in the clear exactly where the key unit is zero. */
  lemma StoredValueIsMixed(entry: (Text, Text), key: Text, i: nat)
    requires MachineKey(key) && GoodKey(entry.0) && WellFormed(entry.1) && i < |entry.1|
    ensures var (line, n) := (Line(entry, key), |entry.0|);
            && n < |line| && line[..n] == entry.0 && line[n] == EQUALS
            && var stored := Decode(FromBase64(line[n + 1..]));
               && |stored| == |entry.1|
               && (stored[i] == entry.1[i] <==> key[i % |key|] == 0)
               && forall m :: OneBit(m) ==> (HasBit(stored[i], m) <==> HasBit(entry.1[i], m) != HasBit(key[i % |key|], m))
  {
    hide WellFormed, Encode, ToBase64, FromBase64, Xor, Decode, HasBit, OneBit;
    var x := Xor(entry.1, key);
    Base64Survives(Encode(x));
    DecodeEncode(x);
    XorSurvives(entry.1, key);
    ScrubKeepsExactlyTheWellFormed(x);
    var line, n := Line(entry, key), |entry.0|;
    assert line[..n] == entry.0 && line[n + 1..] == ToBase64(Encode(x));
    XorBitByBit(entry.1, key, i);
  }

  /** What a line of a file reads as: the part before its first '=', if there is one and it is not the
      first character, with the decoded rest mixed with the key in the same way. */
  lemma LineReadsAs(line: Text, key: Text)
    requires key != []
    ensures ParseLine(line, key).Some? <==> EQUALS in line && line[0] != EQUALS
    ensures ParseLine(line, key).Some? ==>
              var (k, v) := ParseLine(line, key).value;
              && 0 < |k| < |line| && line[..|k|] == k && line[|k|] == EQUALS && EQUALS !in k
              && |v| == |Decode(FromBase64(line[|k| + 1..]))|
              && forall i, m | 0 <= i < |v| && OneBit(m) ::
                   HasBit(v[i], m) <==> HasBit(Decode(FromBase64(line[|k| + 1..]))[i], m) != HasBit(key[i % |key|], m)
  {
    if ParseLine(line, key).Some? {
      var (k, v) := ParseLine(line, key).value;
      var stored := Decode(FromBase64(line[|k| + 1..]));
      hide HasBit, OneBit, Xor, Decode, FromBase64;
      forall i, m | 0 <= i < |v| && OneBit(m)
        ensures HasBit(v[i], m) <==> HasBit(stored[i], m) != HasBit(key[i % |key|], m)
      {
        XorBitByBit(stored, key, i);
      }
    }
  }

  /** A secret as it comes back from the file: itself exactly when it is well-formed. */
  lemma ValueSurvives(v: Text, key: Text)
    requires MachineKey(key)
    ensures Xor(Decode(Encode(Xor(v, key))), key) == v <==> WellFormed(v)
  {
    var obf := Xor(v, key);
    DecodeEncode(obf);
    ScrubKeepsExactlyTheWellFormed(obf);
    XorSurvives(v, key);
    XorSurvives(Scrub(obf), key);
    if Xor(Scrub(obf), key) == v {
      assert Xor(v, key) == Scrub(obf);
    }
  }

  lemma SeparatorsAreText()
    ensures WellFormed([EQUALS]) && WellFormed([NEWLINE]) && WellFormed([]) && EQUALS != NEWLINE
    ensures forall c :: IsLow(c) ==> !IsHigh(c) && c != NEWLINE
    ensures !IsHigh(NEWLINE)
  {
  }

  // ---- lines ----

  ghost predicate OneLine(t: Text) {
    NEWLINE !in t
  }

  lemma {:induction false} SplitOneLine(t: Text)
    requires OneLine(t)
    ensures Split(t) == [t]
  {
    if t != [] {
      SplitOneLine(t[1..]);
      assert t == [t[0]] + t[1..];
    }
  }

  lemma {:induction false} SplitFirst(t: Text, rest: Text)
    requires OneLine(t)
    ensures Split(t + [NEWLINE] + rest) == [t] + Split(rest)
  {
    if t == [] {
      assert (t + [NEWLINE] + rest)[1..] == rest;
    } else {
      SplitFirst(t[1..], rest);
      assert (t + [NEWLINE] + rest)[1..] == t[1..] + [NEWLINE] + rest;
      assert t == [t[0]] + t[1..];
    }
  }

  lemma {:induction false} SplitJoin(lines: seq<Text>)
    requires lines != [] && forall i :: 0 <= i < |lines| ==> OneLine(lines[i])
    ensures Split(Join(lines)) == lines
  {
    if |lines| == 1 {
      SplitOneLine(lines[0]);
    } else {
      SplitJoin(lines[1..]);
      SplitFirst(lines[0], Join(lines[1..]));
    }
  }

  /** Every piece of a split text is one line and a stretch of the text bounded by newlines. */
  lemma {:induction false} SplitPieces(text: Text)
    ensures forall i :: 0 <= i < |Split(text)| ==> OneLine(Split(text)[i])
  {
    if text != [] {
      SplitPieces(text[1..]);
    }
  }

  lemma {:induction false} SplitKeepsWellFormed(text: Text)
    requires WellFormed(text)
    ensures forall i :: 0 <= i < |Split(text)| ==> WellFormed(Split(text)[i])
    decreases |text|
  {
    hide IsHigh, IsLow;
    SeparatorsAreText();
    if text == [] {
    } else if text[0] == NEWLINE {
      WellFormedTail(text, 1);
      SplitKeepsWellFormed(text[1..]);
    } else if !IsHigh(text[0]) {
      assert !IsLow(text[0]);
      WellFormedTail(text, 1);
      SplitKeepsWellFormed(text[1..]);
      var piece := Split(text[1..])[0];
      WellFormedConcat([text[0]], piece);
    } else {
      WellFormedTail(text, 2);
      SplitKeepsWellFormed(text[2..]);
      assert text[1] != NEWLINE;
      assert text[1..][1..] == text[2..];
      var rest := Split(text[2..]);
      assert Split(text[1..]) == [[text[1]] + rest[0]] + rest[1..];
      assert Split(text)[0] == [text[0], text[1]] + rest[0];
      WellFormedConcat([text[0], text[1]], rest[0]);
    }
  }

  // ---- which entries a vault file can hold ----

  ghost predicate GoodKey(k: Text) {
    k != [] && EQUALS !in k && NEWLINE !in k && WellFormed(k) && k != PROTO
  }

  ghost predicate GoodVault(vault: Vault) {
    forall k :: k in vault ==> GoodKey(k) && WellFormed(vault[k])
  }

  lemma PrefixKeepsWellFormed(line: Text, i: nat)
    requires WellFormed(line) && i < |line| && line[i] == EQUALS
    ensures WellFormed(line[..i])
  {
  }

  lemma ParsedEntryIsGood(line: Text, key: Text)
    requires MachineKey(key) && OneLine(line) && WellFormed(line)
    ensures var e := ParseLine(line, key);
            e.Some? && e.value.0 != PROTO ==> GoodKey(e.value.0) && WellFormed(e.value.1)
  {
    hide Decode, FromBase64, Xor, MachineKey;
    match IndexOfEquals(line)
    case None =>
    case Some(i) =>
      if i > 0 {
        var v := Decode(FromBase64(line[i + 1..]));
        PrefixKeepsWellFormed(line, i);
        DecodeIsWellFormed(FromBase64(line[i + 1..]));
        XorSurvives(v, key);
        assert forall c :: c in line[..i] ==> c in line;
      }
  }

  lemma {:induction false} ParsedVaultIsGood(lines: seq<Text>, key: Text, vault: Vault)
    requires MachineKey(key) && GoodVault(vault)
    requires forall i :: 0 <= i < |lines| ==> OneLine(lines[i]) && WellFormed(lines[i])
    ensures GoodVault(ParseLines(lines, key, vault))
  {
    if lines != [] {
      ParsedEntryIsGood(lines[0], key);
      match ParseLine(lines[0], key)
      case None => ParsedVaultIsGood(lines[1..], key, vault);
      case Some(e) => ParsedVaultIsGood(lines[1..], key, Assign(vault, e.0, e.1));
    }
  }

  /** Whatever is on disk, readVault returns only entries a vault file can hold. */
  lemma ReadIsGood(file: Option<Bytes>, key: Text)
    requires MachineKey(key)
    ensures GoodVault(Read(file, key))
  {
    if file.Some? {
      var bytes := FromBase64(Decode(file.value));
      DecodeIsWellFormed(bytes);
      SplitPieces(Decode(bytes));
      SplitKeepsWellFormed(Decode(bytes));
      ParsedVaultIsGood(Split(Decode(bytes)), key, map[]);
    }
  }

  // ---- the round trip ----

  /** `entries` is Object.entries(vault) in some order. */
  ghost predicate Enumerates(entries: seq<(Text, Text)>, vault: Vault) {
    && (forall i, j :: 0 <= i < j < |entries| ==> entries[i].0 != entries[j].0)
    && (forall i :: 0 <= i < |entries| ==> entries[i].0 in vault && vault[entries[i].0] == entries[i].1)
    && (forall k :: k in vault ==> exists i :: 0 <= i < |entries| && entries[i].0 == k)
  }

  ghost predicate GoodEntries(entries: seq<(Text, Text)>) {
    forall i :: 0 <= i < |entries| ==> GoodKey(entries[i].0)
  }

  /** An entry after a round trip through the file. */
  function Returned(v: Text, key: Text): Text
    requires key != []
  {
    Xor(Decode(Encode(Xor(v, key))), key)
  }

  function ReturnedVault(entries: seq<(Text, Text)>, key: Text, vault: Vault): Vault
    requires key != []
  {
    if entries == [] then vault
    else ReturnedVault(entries[1..], key, vault[entries[0].0 := Returned(entries[0].1, key)])
  }

  lemma LineIsSound(entry: (Text, Text), key: Text)
    requires MachineKey(key) && GoodKey(entry.0)
    ensures OneLine(Line(entry, key)) && WellFormed(Line(entry, key))
    ensures ParseLine(Line(entry, key), key) == Some((entry.0, Returned(entry.1, key)))
  {
    hide WellFormed, IsHigh, IsLow, Encode, ToBase64, FromBase64, Xor, Decode;
    var bytes := Encode(Xor(entry.1, key));
    Base64IsPlain(bytes);
    Base64Survives(bytes);
    SeparatorsAreText();
    var line, b64 := Line(entry, key), ToBase64(bytes);
    WellFormedConcat(entry.0, [EQUALS]);
    WellFormedConcat(entry.0 + [EQUALS], b64);
    FirstEquals(entry.0, b64);
    assert line[..|entry.0|] == entry.0 && line[|entry.0| + 1..] == b64;
  }

  lemma {:induction false} FirstEquals(k: Text, rest: Text)
    requires EQUALS !in k
    ensures IndexOfEquals(k + [EQUALS] + rest) == Some(|k|)
  {
    var line := k + [EQUALS] + rest;
    if k == [] {
      assert line[0] == EQUALS;
    } else {
      FirstEquals(k[1..], rest);
      assert line[1..] == k[1..] + [EQUALS] + rest;
      assert line[0] == k[0];
    }
  }

  lemma {:induction false} LinesAreText(entries: seq<(Text, Text)>, key: Text)
    requires MachineKey(key) && GoodEntries(entries)
    ensures forall i :: 0 <= i < |Lines(entries, key)| ==> OneLine(Lines(entries, key)[i]) && WellFormed(Lines(entries, key)[i])
  {
    hide WellFormed, Line, OneLine, GoodKey;
    if entries != [] {
      LineIsSound(entries[0], key);
      LinesAreText(entries[1..], key);
    }
  }

  lemma {:induction false} JoinIsText(lines: seq<Text>)
    requires forall i :: 0 <= i < |lines| ==> WellFormed(lines[i])
    ensures WellFormed(Join(lines))
  {
    hide WellFormed;
    SeparatorsAreText();
    if |lines| > 1 {
      JoinIsText(lines[1..]);
      WellFormedConcat(lines[0], [NEWLINE]);
      WellFormedConcat(lines[0] + [NEWLINE], Join(lines[1..]));
    }
  }

  lemma {:induction false} LinesParse(entries: seq<(Text, Text)>, key: Text, vault: Vault)
    requires MachineKey(key) && GoodEntries(entries)
    ensures ParseLines(Lines(entries, key), key, vault) == ReturnedVault(entries, key, vault)
  {
    if entries != [] {
      var e := entries[0];
      LineIsSound(e, key);
      LinesParse(entries[1..], key, vault[e.0 := Returned(e.1, key)]);
      assert Lines(entries, key)[1..] == Lines(entries[1..], key);
    }
  }

  /** Reading a printed file gives each secret as UTF-8 returns it. */
  lemma ReadPrinted(entries: seq<(Text, Text)>, key: Text)
    requires MachineKey(key) && GoodEntries(entries)
    ensures Read(Some(Print(entries, key)), key) == ReturnedVault(entries, key, map[])
  {
    var lines := Lines(entries, key);
    var text := Join(lines);
    LinesAreText(entries, key);
    JoinIsText(Lines(entries, key));
    LinesParse(entries, key, map[]);
    var b64 := ToBase64(Encode(text));
    Base64IsPlain(Encode(text));
    DecodeEncode(b64);
    ScrubKeepsExactlyTheWellFormed(b64);
    Base64Survives(Encode(text));
    DecodeEncode(text);
    ScrubKeepsExactlyTheWellFormed(text);
    if entries == [] {
      assert Split(text) == [[]];
      assert ParseLine([], key) == None;
      assert ParseLines([[]], key, map[]) == ParseLines([], key, map[]);
    } else {
      SplitJoin(lines);
    }
  }

  lemma {:induction false} ReturnedLookup(entries: seq<(Text, Text)>, key: Text, vault: Vault, k: Text)
    requires key != []
    requires forall i, j :: 0 <= i < j < |entries| ==> entries[i].0 != entries[j].0
    ensures var r := ReturnedVault(entries, key, vault);
            && (k in r <==> k in vault || exists i :: 0 <= i < |entries| && entries[i].0 == k)
            && (forall i :: 0 <= i < |entries| && entries[i].0 == k ==> r[k] == Returned(entries[i].1, key))
            && (k in vault && (forall i :: 0 <= i < |entries| ==> entries[i].0 != k) ==> r[k] == vault[k])
  {
    if entries != [] {
      var e := entries[0];
      var rest := entries[1..];
      assert forall i :: 0 <= i < |rest| ==> rest[i] == entries[i + 1];
      ReturnedLookup(rest, key, vault[e.0 := Returned(e.1, key)], k);
      if exists i :: 0 <= i < |entries| && entries[i].0 == k {
        var i :| 0 <= i < |entries| && entries[i].0 == k;
        if i > 0 {
          assert rest[i - 1].0 == k;
        }
      }
    }
  }

  lemma GoodVaultReturns(vault: Vault, entries: seq<(Text, Text)>, key: Text)
    requires MachineKey(key) && Enumerates(entries, vault) && GoodVault(vault)
    ensures ReturnedVault(entries, key, map[]) == vault
  {
    hide WellFormed, Xor, Encode, Decode;
    var back := ReturnedVault(entries, key, map[]);
    forall k
      ensures k in back <==> k in vault
      ensures k in vault ==> back[k] == vault[k]
    {
      ReturnedLookup(entries, key, map[], k);
      if k in vault {
        ValueSurvives(vault[k], key);
      }
    }
  }

  /** readVault after writeVault returns the same object exactly when every key is non-empty, free of
      '=' and newline, not `__proto__` and well-formed, and every value is well-formed. */
  lemma VaultRoundTrip(vault: Vault, entries: seq<(Text, Text)>, key: Text)
    requires MachineKey(key) && Enumerates(entries, vault)
    ensures Read(Some(Print(entries, key)), key) == vault <==> GoodVault(vault)
  {
    ReadIsGood(Some(Print(entries, key)), key);
    if GoodVault(vault) {
      ReadPrinted(entries, key);
      GoodVaultReturns(vault, entries, key);
    }
  }

  // ---- any sequence of operations ----

  datatype Op = SetSecret(k: Text, v: Text) | DeleteSecret(k: Text)

  /** The object each operation writes back. */
  function Changed(vault: Vault, op: Op): Vault {
    match op
    case SetSecret(k, v) => Assign(vault, k, v)
    case DeleteSecret(k) => vault - {k}
  }

  /** The plain dictionary the store stands for. */
  function Dictionary(ops: seq<Op>, start: Vault): Vault {
    if ops == [] then start
    else
      var before := Dictionary(ops[..|ops| - 1], start);
      match ops[|ops| - 1]
      case SetSecret(k, v) => before[k := v]
      case DeleteSecret(k) => before - {k}
  }

  ghost predicate Writes(file: Bytes, vault: Vault, key: Text)
    requires key != []
  {
    exists entries :: Enumerates(entries, vault) && file == Print(entries, key)
  }

  ghost predicate Representable(op: Op) {
    op.SetSecret? ==> GoodKey(op.k) && WellFormed(op.v)
  }

  /** The operation turned one vault file into the other. */
  ghost predicate Turns(before: Option<Bytes>, op: Op, after: Option<Bytes>, key: Text)
    requires key != []
  {
    after.Some? && Writes(after.value, Changed(Read(before, key), op), key)
  }

  /** `files` are the vault files before, between and after the operations. */
  ghost predicate IsHistory(files: seq<Option<Bytes>>, ops: seq<Op>, key: Text)
    requires key != []
  {
    && |files| == |ops| + 1
    && forall i :: 0 <= i < |ops| ==> Turns(files[i], ops[i], files[i + 1], key)
  }

  /** From any file at all, any sequence of representable operations refines a plain dictionary. */
  lemma {:induction false} StoreRefinesDictionary(files: seq<Option<Bytes>>, ops: seq<Op>, key: Text)
    requires MachineKey(key) && IsHistory(files, ops, key)
    requires forall i :: 0 <= i < |ops| ==> Representable(ops[i])
    ensures Read(files[|ops|], key) == Dictionary(ops, Read(files[0], key))
  {
    if ops != [] {
      var n := |ops| - 1;
      StoreRefinesDictionary(files[..n + 1], ops[..n], key);
      assert files[..n + 1][n] == files[n];
      OperationRefines(files[n], ops[n], files[n + 1], key);
    }
  }

  lemma OperationRefines(before: Option<Bytes>, op: Op, after: Option<Bytes>, key: Text)
    requires MachineKey(key) && Turns(before, op, after, key) && Representable(op)
    ensures Read(after, key) == (match op
                                 case SetSecret(k, v) => Read(before, key)[k := v]
                                 case DeleteSecret(k) => Read(before, key) - {k})
  {
    ReadIsGood(before, key);
    var vault := Read(before, key);
    ChangedIsGood(vault, op);
    WrittenIsRead(after.value, Changed(vault, op), key);
  }

  lemma ChangedIsGood(vault: Vault, op: Op)
    requires GoodVault(vault) && Representable(op)
    ensures GoodVault(Changed(vault, op))
    ensures Changed(vault, op) == match op
                                  case SetSecret(k, v) => vault[k := v]
                                  case DeleteSecret(k) => vault - {k}
  {
  }

  lemma WrittenIsRead(file: Bytes, vault: Vault, key: Text)
    requires MachineKey(key) && Writes(file, vault, key) && GoodVault(vault)
    ensures Read(Some(file), key) == vault
  {
    var entries :| Enumerates(entries, vault) && file == Print(entries, key);
    VaultRoundTrip(vault, entries, key);
  }

  // ---- lookups ----

  datatype Found = Secret(value: Text) | Null | InheritedProperty

  /** `vault[key] ?? null`. */
  function Lookup(vault: Vault, k: Text): Found {
    if k in vault then Secret(vault[k]) else if k in INHERITED then InheritedProperty else Null
  }

  /** A lookup answers like a dictionary exactly when the key is present or is no inherited name. */
  lemma LookupRefinesDictionary(vault: Vault, k: Text)
    ensures Lookup(vault, k) == (if k in vault then Secret(vault[k]) else Null)
            <==> k in vault || k !in INHERITED
  {
  }

  // ---- the store in its own form ----

  lemma AssignIsGood(vault: Vault, k: Text, v: Text)
    requires GoodVault(vault) && GoodKey(k) && WellFormed(v)
    ensures GoodVault(Assign(vault, k, v)) && Assign(vault, k, v) == vault[k := v]
  {
    hide WellFormed;
  }

  class FileStore {
    const key: Text
    var file: Option<Bytes>

    constructor (key: Text, file: Option<Bytes>)
      ensures this.key == key && this.file == file
    {
      this.key := key;
      this.file := file;
    }

    method ReadVault() returns (out: Vault)
      requires MachineKey(key)
      ensures out == Read(file, key)
    {
      if file.None? {
        return map[];
      }
      var buf := FromBase64(Decode(file.value));
      out := map[];
      var lines := Split(Decode(buf));
      var n := 0;
      while n < |lines|
        invariant 0 <= n <= |lines|
        invariant ParseLines(lines[n..], key, out) == Read(file, key)
      {
        var line := lines[n];
        var idx := IndexOfEquals(line);
        if idx.Some? && idx.value > 0 {
          var k := line[..idx.value];
          var v := line[idx.value + 1..];
          out := Assign(out, k, Xor(Decode(FromBase64(v)), key));
        }
        n := n + 1;
      }
    }

    method Entries(vault: Vault) returns (entries: seq<(Text, Text)>)
      ensures Enumerates(entries, vault)
    {
      entries := [];
      var rest := vault.Keys;
      while rest != {}
        invariant rest <= vault.Keys
        invariant forall i, j :: 0 <= i < j < |entries| ==> entries[i].0 != entries[j].0
        invariant forall i :: 0 <= i < |entries| ==>
                    entries[i].0 in vault && entries[i].0 !in rest && vault[entries[i].0] == entries[i].1
        invariant forall k :: k in vault ==> k in rest || exists i :: 0 <= i < |entries| && entries[i].0 == k
      {
        var k :| k in rest;
        ghost var before, left := entries, rest;
        entries := entries + [(k, vault[k])];
        rest := rest - {k};
        forall j | j in vault
          ensures j in rest || exists i :: 0 <= i < |entries| && entries[i].0 == j
        {
          if j == k {
            assert entries[|before|].0 == k;
          } else if j !in left {
            var i :| 0 <= i < |before| && before[i].0 == j;
            assert entries[i].0 == j;
          }
        }
      }
    }

    method WriteVault(vault: Vault)
      requires MachineKey(key)
      modifies this
      ensures file.Some? && Writes(file.value, vault, key)
      ensures GoodVault(vault) ==> Read(file, key) == vault
    {
      var entries := Entries(vault);
      file := Some(Print(entries, key));
      VaultRoundTrip(vault, entries, key);
    }

    method SetSecret(k: Text, v: Text)
      requires MachineKey(key)
      modifies this
      ensures file.Some? && Writes(file.value, Changed(old(Read(file, key)), Op.SetSecret(k, v)), key)
      ensures GoodKey(k) && WellFormed(v) ==> Read(file, key) == old(Read(file, key))[k := v]
    {
      var vault := ReadVault();
      ReadIsGood(file, key);
      if GoodKey(k) && WellFormed(v) {
        AssignIsGood(vault, k, v);
      }
      hide GoodVault, GoodKey, WellFormed, Assign, Writes, Read, MachineKey;
      WriteVault(Assign(vault, k, v));
    }

    method GetSecret(k: Text) returns (found: Found)
      requires MachineKey(key)
      ensures found == Lookup(Read(file, key), k)
    {
      var vault := ReadVault();
      found := Lookup(vault, k);
    }

    method DeleteSecret(k: Text)
      requires MachineKey(key)
      modifies this
      ensures file.Some? && Writes(file.value, Changed(old(Read(file, key)), Op.DeleteSecret(k)), key)
      ensures Read(file, key) == old(Read(file, key)) - {k}
    {
      var vault := ReadVault();
      ReadIsGood(file, key);
      WriteVault(vault - {k});
    }
  }
}
