/** The canonicalizer itself: closures over a cursor and a sticky error become methods over two fields. */
module JsonCanonicalizer {
  import opened Bytes
  import Unicode
  import opened JsonString
  import opened JsonValue
  import opened JsonParser

  /** A member as the sorted list holds it: raw name, sort key and the text of its value. */
  datatype Entry = Entry(name: bytes, sortKey: seq<int>, text: bytes)

  ghost function EntryOf(m: Member): Entry {
    Entry(m.name, Key(m), Print(m.value))
  }

  ghost function EntriesOf(ms: seq<Member>): (es: seq<Entry>)
    ensures |es| == |ms|
    ensures forall i :: 0 <= i < |ms| ==> es[i] == EntryOf(ms[i])
  {
    seq(|ms|, i requires 0 <= i < |ms| => EntryOf(ms[i]))
  }

  /** The position before which a member is inserted, and what the insertion gives. */
  lemma {:induction false} InsertAt(ms: seq<Member>, m: Member, k: nat)
    requires k <= |ms|
    requires forall i :: 0 <= i < k ==> !Less(Key(m), Key(ms[i]))
    requires k < |ms| ==> Less(Key(m), Key(ms[k]))
    ensures Insert(ms, m) == ms[..k] + [m] + ms[k..]
    decreases k
  {
    hide Less, Key;
    if k == 0 {
      assert ms == ms[..0] + ms;
    } else {
      var t := ms[1..];
      assert !Less(Key(m), Key(ms[0]));
      InsertAt(t, m, k - 1);
      assert ms[..k] == [ms[0]] + t[..k - 1] && ms[k..] == t[k - 1..];
    }
  }

  lemma {:induction false} EntriesInsertAt(ms: seq<Member>, m: Member, k: nat)
    requires k <= |ms|
    requires forall i :: 0 <= i < k ==> !Less(Key(m), Key(ms[i]))
    requires k < |ms| ==> Less(Key(m), Key(ms[k]))
    ensures EntriesOf(Insert(ms, m)) == EntriesOf(ms)[..k] + [EntryOf(m)] + EntriesOf(ms)[k..]
  {
    hide Insert, Less, Key, EntryOf;
    InsertAt(ms, m, k);
  }

  lemma {:induction false} NotLater(ms: seq<Member>, k: nat, key: seq<int>)
    requires Sorted(ms) && k < |ms| && Less(key, Key(ms[k]))
    ensures forall i :: k <= i < |ms| ==> Key(ms[i]) != key
  {
    forall i | k <= i < |ms|
      ensures Key(ms[i]) != key
    {
      if i > k { LessTransitive(key, Key(ms[k]), Key(ms[i])); }
      LessIrreflexive(key);
    }
  }

  lemma {:induction false} EscapeTables()
    ensures forall i :: 0 <= i < 7 ==> Letter(BINARY_ESCAPES[i]) == Some(ASCII_ESCAPES[i])
    ensures forall c: byte :: (forall i :: 0 <= i < 7 ==> BINARY_ESCAPES[i] != c) ==> Letter(c).None?
    ensures forall c: byte :: (forall i :: 0 <= i < 7 ==> ASCII_ESCAPES[i] != c) ==> Unletter(c).None?
  {
    forall c: byte | forall i :: 0 <= i < 7 ==> BINARY_ESCAPES[i] != c
      ensures Letter(c).None?
    {
      assert BINARY_ESCAPES[0] != c && BINARY_ESCAPES[1] != c && BINARY_ESCAPES[2] != c && BINARY_ESCAPES[3] != c;
      assert BINARY_ESCAPES[4] != c && BINARY_ESCAPES[5] != c && BINARY_ESCAPES[6] != c;
    }
    forall c: byte | forall i :: 0 <= i < 7 ==> ASCII_ESCAPES[i] != c
      ensures Unletter(c).None?
    {
      assert ASCII_ESCAPES[0] != c && ASCII_ESCAPES[1] != c && ASCII_ESCAPES[2] != c && ASCII_ESCAPES[3] != c;
      assert ASCII_ESCAPES[4] != c && ASCII_ESCAPES[5] != c && ASCII_ESCAPES[6] != c;
    }
  }

  /** The escaped form of one byte: standard escape, control escape, or the byte itself. */
  method EscapeOne(c: byte) returns (out: bytes)
    ensures out == EscapeByte(c)
  {
    EscapeTables();
    for i := 0 to |BINARY_ESCAPES|
      invariant forall k :: 0 <= k < i ==> BINARY_ESCAPES[k] != c
    {
      if BINARY_ESCAPES[i] == c {
        return [BACKSLASH, ASCII_ESCAPES[i]];
      }
    }
    if c < 0x20 {
      out := [BACKSLASH, LOWER_U, 0x30, 0x30, HexLetter(c / 16), HexLetter(c % 16)];
    } else {
      out := [c];
    }
  }

  lemma {:induction false} TokenCases(s: bytes)
    ensures var t := SkipWhiteSpace(s);
            if !Readable(t) then Token(s).Fail?
            else if IsDelimiter(t[0]) then Token(s) == Ok([], s)
            else if IsWhiteSpace(s[0]) then Token(s) == Ok([], s[1..])
            else t == s && Token(s) == Prepend([s[0]], Token(s[1..]))
  {
  }

  method DecorateString(rawUTF8: bytes) returns (out: bytes)
    ensures out == Quote(rawUTF8)
  {
    out := [QUOTE];
    for i := 0 to |rawUTF8|
      invariant out == [QUOTE] + Body(rawUTF8[..i])
    {
      var e := EscapeOne(rawUTF8[i]);
      out := out + e;
      BodyAppend(rawUTF8[..i], rawUTF8[i]);
      assert rawUTF8[..i + 1] == rawUTF8[..i] + [rawUTF8[i]];
    }
    assert rawUTF8[..|rawUTF8|] == rawUTF8;
    out := out + [QUOTE];
  }

  /** Compares sort keys unit by unit up to the shorter length, then by length. */
  method LexicographicallyPrecedes(sortKey: seq<int>, oldSortKey: seq<int>) returns (precedes: bool, duplicate: bool)
    ensures precedes == Less(sortKey, oldSortKey)
    ensures duplicate == (sortKey == oldSortKey)
  {
    var minLength := if |oldSortKey| > |sortKey| then |sortKey| else |oldSortKey|;
    LessIrreflexive(sortKey);
    for q := 0 to minLength
      invariant sortKey[..q] == oldSortKey[..q]
      invariant Less(sortKey, oldSortKey) == Less(sortKey[q..], oldSortKey[q..])
    {
      if sortKey[q] != oldSortKey[q] {
        return sortKey[q] < oldSortKey[q], false;
      }
      assert sortKey[q..][1..] == sortKey[q + 1..] && oldSortKey[q..][1..] == oldSortKey[q + 1..];
      assert sortKey[..q + 1] == sortKey[..q] + [sortKey[q]]
          && oldSortKey[..q + 1] == oldSortKey[..q] + [oldSortKey[q]];
    }
    precedes := |sortKey| < |oldSortKey|;
    duplicate := |sortKey| == |oldSortKey|;
    assert sortKey == sortKey[..minLength] + sortKey[minLength..];
    assert oldSortKey == oldSortKey[..minLength] + oldSortKey[minLength..];
  }

  class Canonicalizer {
    const data: bytes
    const spell: Spelling
    var index: nat
    var failed: bool

    ghost predicate Valid()
      reads this
    {
      index <= |data|
    }

    constructor (jsonData: bytes, spelling: Spelling)
      ensures Valid() && data == jsonData && spell == spelling && index == 0 && !failed
    {
      data, spell, index, failed := jsonData, spelling, 0, false;
    }

    /** One character: an error at the end of the input or outside ASCII, where a quote stands for the missing one. */
    method NextChar() returns (c: byte)
      requires Valid()
      modifies this
      ensures Valid() && failed == (old(failed) || !Readable(data[old(index)..]))
      ensures if old(index) < |data| then c == data[old(index)] && index == old(index) + 1
              else c == QUOTE && index == old(index)
    {
      if index < |data| {
        c := data[index];
        if c > 0x7F { failed := true; }
        index := index + 1;
      } else {
        failed := true;
        c := QUOTE;
      }
    }

    /** The next character that is not white space. */
    method Scan() returns (c: byte)
      requires Valid()
      modifies this
      ensures Valid() && old(index) <= index && !IsWhiteSpace(c)
      ensures var t := SkipWhiteSpace(data[old(index)..]);
              && failed == (old(failed) || !Readable(t))
              && if t == [] then c == QUOTE else c == t[0] && old(index) < index && data[index - 1..] == t
    {
      c := NextChar();
      while IsWhiteSpace(c)
        invariant Valid() && old(index) <= index
        invariant IsWhiteSpace(c) ==>
                    && failed == old(failed) && old(index) < index
                    && SkipWhiteSpace(data[index..]) == SkipWhiteSpace(data[old(index)..])
        invariant !IsWhiteSpace(c) ==> var t := SkipWhiteSpace(data[old(index)..]);
                  && failed == (old(failed) || !Readable(t))
                  && if t == [] then c == QUOTE else c == t[0] && old(index) < index && data[index - 1..] == t
        decreases |data| - index, IsWhiteSpace(c)
      {
        c := NextChar();
      }
    }

    method ScanFor(expected: byte)
      requires Valid() && expected <= 0x7F && !IsWhiteSpace(expected)
      modifies this
      ensures Valid() && old(index) <= index
      ensures var t := SkipWhiteSpace(data[old(index)..]);
              && failed == (old(failed) || t == [] || t[0] != expected)
              && (t != [] ==> old(index) < index && data[index..] == t[1..])
    {
      var c := Scan();
      if c != expected { failed := true; }
    }

    /** Looks at the next character without moving; it may still raise an error. */
    method TestNextNonWhiteSpaceChar() returns (c: byte)
      requires Valid()
      modifies this
      ensures index == old(index)
      ensures var t := SkipWhiteSpace(data[index..]);
              failed == (old(failed) || !Readable(t)) && c == if t == [] then QUOTE else t[0]
    {
      var save := index;
      c := Scan();
      index := save;
    }

    /** Four hex digits. */
    method GetUEscape() returns (u: int)
      requires Valid()
      modifies this
      ensures Valid() && old(index) <= index && 0 <= u < 0x10000
      ensures failed == (old(failed) || !FourHex(data[old(index)..]))
      ensures !failed ==> u == Hex4(data[old(index)..]) && index == old(index) + 4
    {
      var start := index;
      ghost var s := data[index..];
      var _ := NextChar();
      var _ := NextChar();
      var _ := NextChar();
      var _ := NextChar();
      if failed {
        assert !old(failed) ==> !FourHex(s);
        return 0;
      }
      var digits := data[start..index];
      assert digits[0] == s[0] && digits[1] == s[1] && digits[2] == s[2] && digits[3] == s[3];
      if FourHex(digits) {
        u := Hex4(digits);
      } else {
        failed, u := true, 0;
      }
    }

    /** The escape sequence after a backslash, as raw bytes. */
    method ParseEscape() returns (raw: bytes)
      requires Valid() && !failed
      modifies this
      ensures Valid() && old(index) <= index
      ensures var p := Escape(data[old(index)..]);
              failed == p.Fail? && (p.Ok? ==> raw == p.value && data[index..] == p.rest)
    {
      raw := [];
      ghost var s := data[index..];
      var c := NextChar();
      if c == LOWER_U {
        var firstUTF16 := GetUEscape();
        assert !failed ==> FourHex(s[1..]) && data[index..] == s[5..];
        if Unicode.Surrogate(firstUTF16) {
          var d := NextChar();
          if d == BACKSLASH { d := NextChar(); } else { d := 0; }
          if d != LOWER_U {
            failed := true;
          } else {
            assert !failed ==> data[index..] == s[7..];
            var secondUTF16 := GetUEscape();
            raw := Unicode.Utf8(Unicode.PairValue(firstUTF16, secondUTF16));
          }
        } else {
          raw := Unicode.Utf8(firstUTF16);
        }
      } else if c == SLASH {
        raw := [SLASH];
      } else {
        raw := UnescapeOne(c);
      }
    }

    /** The standard escapes; any other letter is an error. */
    method UnescapeOne(c: byte) returns (raw: bytes)
      modifies this
      ensures index == old(index) && failed == (old(failed) || Unletter(c).None?)
      ensures Unletter(c).Some? ==> raw == [Unletter(c).value]
    {
      EscapeTables();
      for i := 0 to |ASCII_ESCAPES|
        invariant index == old(index) && failed == old(failed)
        invariant forall k :: 0 <= k < i ==> ASCII_ESCAPES[k] != c
      {
        if ASCII_ESCAPES[i] == c {
          return [BINARY_ESCAPES[i]];
        }
      }
      failed, raw := true, [];
    }

    /** A string literal from just past its opening quote to just past its closing quote. */
    method ParseQuotedString() returns (rawString: bytes)
      requires Valid()
      modifies this
      ensures Valid() && old(index) <= index && (old(failed) ==> failed)
      ensures !old(failed) ==>
                var p := StringBody(data[old(index)..]);
                failed == p.Fail? && (p.Ok? ==> rawString == p.value && data[index..] == p.rest)
    {
      rawString := [];
      ghost var all := StringBody(data[index..]);
      PrependLaws([], [], all);
      while !failed
        invariant Valid() && old(index) <= index && (old(failed) ==> failed)
        invariant !failed ==> all == Prepend(rawString, StringBody(data[index..]))
        invariant failed && !old(failed) ==> all.Fail?
        decreases !failed, |data| - index
      {
        ghost var s := data[index..];
        if index == |data| {
          var _ := NextChar();
          break;
        }
        var c := data[index];
        index := index + 1;
        assert data[index..] == s[1..];
        if c == QUOTE {
          break;
        }
        if c < 0x20 {
          failed := true;
        } else if c == BACKSLASH {
          var raw := ParseEscape();
          PrependLaws(rawString, raw, StringBody(data[index..]));
          rawString := rawString + raw;
        } else {
          PrependLaws(rawString, [c], StringBody(data[index..]));
          rawString := rawString + [c];
        }
      }
    }

    /** A literal or number, from its first character, which has already been scanned. */
    method ParseSimpleType() returns (text: bytes)
      requires Valid() && 0 < index && !IsWhiteSpace(data[index - 1])
      modifies this
      ensures Valid() && old(index) - 1 <= index && (old(failed) ==> failed)
      ensures !failed ==> old(index) <= index
      ensures !old(failed) ==>
                var p := SimpleType(spell, data[old(index) - 1..]);
                failed == p.Fail? && (p.Ok? ==> text == Print(p.value) && data[index..] == p.rest)
    {
      hide Token, SkipWhiteSpace, CanonToken;
      var token: bytes := [];
      index := index - 1;
      ghost var all := Token(data[index..]);
      PrependLaws([], [], all);
      while !failed
        invariant Valid() && old(index) - 1 <= index && (old(failed) ==> failed)
        invariant !failed ==> all == Prepend(token, Token(data[index..])) && index == old(index) - 1 + |token|
        invariant failed && !old(failed) ==> all.Fail?
        decreases !failed, |data| - index
      {
        ghost var s := data[index..];
        TokenCases(s);
        assert token + [] == token;
        var c := TestNextNonWhiteSpaceChar();
        if IsDelimiter(c) {
          assert all == Ok(token, s);
          break;
        }
        c := NextChar();
        if IsWhiteSpace(c) {
          assert !failed ==> all == Ok(token, s[1..]);
          break;
        }
        assert index <= |data| && (|s| > 0 ==> data[index..] == s[1..]);
        PrependLaws(token, [c], Token(data[index..]));
        token := token + [c];
      }
      if token == [] {
        failed := true;
      }
      var r := CanonToken(spell, token);
      if r.Some? {
        text := r.value;
      } else {
        failed, text := true, NULL;
      }
    }

    /** Any value: its canonical text. */
    method ParseElement() returns (text: bytes)
      requires Valid()
      modifies this
      ensures Valid() && old(index) <= index && (old(failed) ==> failed)
      ensures !old(failed) ==>
                var p := Element(spell, data[old(index)..]);
                failed == p.Fail? && (p.Ok? ==> text == Print(p.value) && data[index..] == p.rest)
      decreases !failed, |data| - index, 0
    {
      ghost var t := SkipWhiteSpace(data[index..]);
      var c := Scan();
      assert t != [] ==> c == data[index - 1] && data[index - 1..] == t;
      if c == LBRACE {
        text := ParseObject();
      } else if c == QUOTE {
        var raw := ParseQuotedString();
        text := DecorateString(raw);
      } else if c == LBRACKET {
        text := ParseArray();
      } else {
        text := ParseSimpleType();
      }
    }

    /** The rest of an array, from just past its opening bracket. */
    method ParseArray() returns (text: bytes)
      requires Valid()
      modifies this
      ensures Valid() && old(index) <= index && (old(failed) ==> failed)
      ensures !old(failed) ==>
                var p := Items(spell, data[old(index)..], false);
                failed == p.Fail? && (p.Ok? ==> text == Print(Arr(p.value)) && data[index..] == p.rest)
      decreases !failed, |data| - index, 1
    {
      hide Items, Element, Print, ArrayProgress, SkipWhiteSpace;
      text := [LBRACKET];
      var next := false;
      ghost var all := Items(spell, data[index..], false);
      ArrayStart(spell, data[index..]);
      while !failed
        invariant Valid() && old(index) <= index && (old(failed) ==> failed)
        invariant failed && !old(failed) ==> all.Fail?
        invariant !failed ==> ArrayProgress(spell, data[index..], next, text, all)
        decreases !failed, |data| - index
      {
        ghost var s, wasNext, before := data[index..], next, text;
        var c := TestNextNonWhiteSpaceChar();
        if c == RBRACKET {
          break;
        }
        if next {
          ScanFor(COMMA);
          text := text + [COMMA];
        } else {
          next := true;
        }
        ghost var u := data[index..];
        assert !failed ==> ItemStarts(s, wasNext, RBRACKET, u);
        assert failed ==> all.Fail? by {
          if failed { ItemsStuck(spell, s, wasNext, before, all); }
        }
        var e := ParseElement();
        text := text + e;
        assert text == before + Separator(wasNext) + e;
        if ItemStarts(s, wasNext, RBRACKET, u) {
          ArrayStep(spell, s, wasNext, before, all, u);
        }
      }
      if !failed {
        ArrayEnd(spell, data[index..], next, text, all);
      }
      var _ := Scan();
      text := text + [RBRACKET];
    }

    /** Puts a member before the first one with a larger key; an equal key is an error. */
    method InsertMember(list: seq<Entry>, nameValue: Entry, ghost acc: seq<Member>, ghost m: Member)
      returns (r: seq<Entry>)
      requires !failed ==> Sorted(acc) && list == EntriesOf(acc) && nameValue == EntryOf(m)
      modifies this
      ensures index == old(index) && (old(failed) ==> failed)
      ensures !old(failed) ==> failed == HasKey(acc, Key(m)) && (!failed ==> r == EntriesOf(Insert(acc, m)))
    {
      hide Insert, Less, Print, Sorted, Unicode.SortKey;
      for i := 0 to |list|
        invariant index == old(index) && (old(failed) ==> failed)
        invariant !old(failed) ==> forall k :: 0 <= k < i ==> !Less(Key(m), Key(acc[k]))
        invariant !old(failed) ==> failed == exists k :: 0 <= k < i && Key(acc[k]) == Key(m)
      {
        var precedes, duplicate := LexicographicallyPrecedes(nameValue.sortKey, list[i].sortKey);
        if duplicate { failed := true; }
        if precedes {
          if !old(failed) {
            NotLater(acc, i, Key(m));
            EntriesInsertAt(acc, m, i);
          }
          return list[..i] + [nameValue] + list[i..];
        }
      }
      if !old(failed) {
        EntriesInsertAt(acc, m, |acc|);
      }
      r := list + [nameValue];
    }

    /** The rest of an object, from just past its opening brace. */
    method ParseObject() returns (text: bytes)
      requires Valid()
      modifies this
      ensures Valid() && old(index) <= index && (old(failed) ==> failed)
      ensures !old(failed) ==>
                var p := Members(spell, data[old(index)..], [], false);
                failed == p.Fail? && (p.Ok? ==> text == Print(Obj(p.value)) && data[index..] == p.rest)
      decreases !failed, |data| - index, 1
    {
      hide Members, Element, Print, StringBody;
      var nameValueList: seq<Entry> := [];
      var next := false;
      ghost var acc: seq<Member> := [];
      ghost var all := Members(spell, data[index..], [], false);
      while !failed
        invariant Valid() && old(index) <= index && (old(failed) ==> failed)
        invariant failed && !old(failed) ==> all.Fail?
        invariant !failed ==>
                    Sorted(acc) && nameValueList == EntriesOf(acc) && all == Members(spell, data[index..], acc, next)
        decreases !failed, |data| - index
      {
        ghost var s, wasNext := data[index..], next;
        var c := TestNextNonWhiteSpaceChar();
        if c == RBRACE {
          break;
        }
        if next {
          ScanFor(COMMA);
        }
        next := true;
        ghost var u, stuck := data[index..], failed;
        ScanFor(QUOTE);
        var rawUTF8 := ParseQuotedString();
        if failed {
          MembersStuck(spell, s, acc, wasNext, u);
          break;
        }
        var sortKey := Unicode.SortKey(rawUTF8);
        ScanFor(COLON);
        assert !stuck && failed == Name(u).Fail? && (!failed ==> Name(u) == Ok(rawUTF8, data[index..]));
        var value := ParseElement();
        if Name(u).Fail? {
          MembersStuck(spell, s, acc, wasNext, u);
        } else {
          MembersStep(spell, s, acc, wasNext, u);
        }
        ghost var m := Member(rawUTF8, Simple([]));
        if !failed {
          m := Member(rawUTF8, Element(spell, Name(u).rest).value);
          if !HasKey(acc, Key(m)) { InsertSorted(acc, m); }
        }
        nameValueList := InsertMember(nameValueList, Entry(rawUTF8, sortKey, value), acc, m);
        acc := Insert(acc, m);
      }
      if !failed {
        ObjectEnd(spell, data[index..], acc, next);
      }
      var _ := Scan();
      text := PrintObject(nameValueList);
      if !failed {
        PrintedObject(acc);
      }
    }
  }

  method PrintObject(list: seq<Entry>) returns (text: bytes)
    ensures text == [LBRACE] + PrintEntries(list, false) + [RBRACE]
  {
    text := [LBRACE];
    var next := false;
    assert list[0..] == list;
    for i := 0 to |list|
      invariant next == (i > 0)
      invariant text + PrintEntries(list[i..], next) == [LBRACE] + PrintEntries(list, false)
    {
      ghost var before, wasNext := text, next;
      if next {
        text := text + [COMMA];
      }
      next := true;
      var name := DecorateString(list[i].name);
      text := text + (name + [COLON] + list[i].text);
      EntriesStep(list[i..], wasNext, before);
      assert list[i..][1..] == list[i + 1..];
    }
    assert text + [] == text;
    text := text + [RBRACE];
  }

  function PrintEntry(e: Entry): (s: bytes) {
    Quote(e.name) + [COLON] + e.text
  }

  function PrintEntries(es: seq<Entry>, next: bool): (s: bytes) {
    if es == [] then [] else Separator(next) + PrintEntry(es[0]) + PrintEntries(es[1..], true)
  }

  lemma {:induction false} EntriesStep(es: seq<Entry>, next: bool, text: bytes)
    requires es != []
    ensures text + PrintEntries(es, next) == text + Separator(next) + PrintEntry(es[0]) + PrintEntries(es[1..], true)
  {
    hide PrintEntry, Separator;
    var a, b, c := Separator(next), PrintEntry(es[0]), PrintEntries(es[1..], true);
    assert text + (a + b + c) == text + a + b + c;
  }

  lemma {:induction false} PrintEntriesOf(ms: seq<Member>, next: bool)
    ensures PrintEntries(EntriesOf(ms), next) == PrintMembers(ms, next)
  {
    if ms != [] {
      PrintEntriesOf(ms[1..], true);
      assert EntriesOf(ms)[1..] == EntriesOf(ms[1..]);
    }
  }

  lemma {:induction false} PrintedObject(ms: seq<Member>)
    ensures [LBRACE] + PrintEntries(EntriesOf(ms), false) + [RBRACE] == Print(Obj(ms))
  {
    PrintEntriesOf(ms, false);
  }

  lemma {:induction false} MembersStuck(sp: Spelling, s: bytes, acc: seq<Member>, next: bool, u: bytes)
    requires var t := SkipWhiteSpace(s);
             || !Readable(t)
             || (t[0] != RBRACE && next && t[0] != COMMA)
             || (t[0] != RBRACE && ItemStarts(s, next, RBRACE, u) && Name(u).Fail?)
    ensures Members(sp, s, acc, next).Fail?
  {
  }

  lemma {:induction false} ObjectEnd(sp: Spelling, s: bytes, acc: seq<Member>, next: bool)
    requires var t := SkipWhiteSpace(s); t != [] && t[0] == RBRACE
    ensures Members(sp, s, acc, next) == Ok(acc, SkipWhiteSpace(s)[1..])
  {
  }

  /** What an array has printed so far, together with what is still to come, is what the whole array prints. */
  ghost predicate ArrayProgress(sp: Spelling, s: bytes, next: bool, text: bytes, all: Parsed<seq<Json>>) {
    var p := Items(sp, s, next);
    && p.Fail? == all.Fail?
    && (p.Ok? ==> p.rest == all.rest && text + PrintElems(p.value, next) == [LBRACKET] + PrintElems(all.value, false))
  }

  lemma {:induction false} ArrayStart(sp: Spelling, s: bytes)
    ensures ArrayProgress(sp, s, false, [LBRACKET], Items(sp, s, false))
  {
  }

  lemma {:induction false} ItemsStuck(sp: Spelling, s: bytes, next: bool, text: bytes, all: Parsed<seq<Json>>)
    requires ArrayProgress(sp, s, next, text, all)
    requires var t := SkipWhiteSpace(s); !Readable(t) || (next && t[0] != COMMA && t[0] != RBRACKET)
    ensures all.Fail?
  {
  }

  lemma {:induction false} ArrayStep(sp: Spelling, s: bytes, next: bool, text: bytes, all: Parsed<seq<Json>>, u: bytes)
    requires ItemStarts(s, next, RBRACKET, u) && ArrayProgress(sp, s, next, text, all)
    ensures var e := Element(sp, u);
            if e.Fail? then all.Fail? else ArrayProgress(sp, e.rest, true, text + Separator(next) + Print(e.value), all)
  {
    hide Items, Element, Print;
    ItemsStep(sp, s, next, u);
    var e := Element(sp, u);
    if e.Ok? && Items(sp, e.rest, true).Ok? {
      var vs := Items(sp, e.rest, true).value;
      assert ([e.value] + vs)[1..] == vs;
      assert text + (Separator(next) + Print(e.value) + PrintElems(vs, true)) ==
          (text + Separator(next) + Print(e.value)) + PrintElems(vs, true);
    }
  }

  lemma {:induction false} ArrayEnd(sp: Spelling, s: bytes, next: bool, text: bytes, all: Parsed<seq<Json>>)
    requires ArrayProgress(sp, s, next, text, all)
    requires var t := SkipWhiteSpace(s); t != [] && t[0] == RBRACKET
    ensures all.Ok? && all.rest == SkipWhiteSpace(s)[1..] && text + [RBRACKET] == Print(Arr(all.value))
  {
    assert text + [] == text;
  }

  /** The canonical text, by the first character of the input. */
  lemma {:induction false} CanonicalizeCases(sp: Spelling, s: bytes)
    ensures var t := SkipWhiteSpace(s);
            Canonicalize(sp, s) ==
            if t != [] && t[0] == LBRACKET then
              var p := Items(sp, t[1..], false);
              if p.Fail? || !AllWhiteSpace(p.rest) then None else Some(Print(Arr(p.value)))
            else if t != [] && t[0] == LBRACE then
              var p := Members(sp, t[1..], [], false);
              if p.Fail? || !AllWhiteSpace(p.rest) then None else Some(Print(Obj(p.value)))
            else None
  {
    hide Element, Items, Members, Print, SkipWhiteSpace, AllWhiteSpace;
    var t := SkipWhiteSpace(s);
    if t != [] && t[0] == LBRACKET {
      ElementArray(sp, t);
    } else if t != [] && t[0] == LBRACE {
      ElementObject(sp, t);
    }
  }

  /** The whole transformation: succeeds with the canonical text, or fails, exactly as the specification says. */
  method Transform(jsonData: bytes, spelling: Spelling) returns (result: Option<bytes>)
    ensures result == Canonicalize(spelling, jsonData)
  {
    hide Items, Members, Element, Print, SkipWhiteSpace, Canonicalize, AllWhiteSpace;
    CanonicalizeCases(spelling, jsonData);
    var j := new Canonicalizer(jsonData, spelling);
    assert jsonData[0..] == jsonData;
    ghost var t := SkipWhiteSpace(jsonData);
    var c := j.TestNextNonWhiteSpaceChar();
    var transformed;
    if c == LBRACKET {
      var _ := j.Scan();
      transformed := j.ParseArray();
    } else {
      j.ScanFor(LBRACE);
      transformed := j.ParseObject();
    }
    ghost var rest, bad := jsonData[j.index..], j.failed;
    assert Canonicalize(spelling, jsonData) == if bad || !AllWhiteSpace(rest) then None else Some(transformed);
    while j.index < |jsonData|
      invariant j.Valid() && j.data == jsonData && j.failed == bad
      invariant AllWhiteSpace(rest) <==> AllWhiteSpace(jsonData[j.index..])
    {
      if !IsWhiteSpace(jsonData[j.index]) {
        NotWhiteSpace(jsonData[j.index..]);
        j.failed := true;
        break;
      }
      TailWhiteSpace(jsonData[j.index..]);
      assert jsonData[j.index..][1..] == jsonData[j.index + 1..];
      j.index := j.index + 1;
    }
    if j.index == |jsonData| { NoText(jsonData[j.index..]); }
    result := if j.failed then None else Some(transformed);
  }

  lemma {:induction false} NotWhiteSpace(s: bytes)
    requires s != [] && !IsWhiteSpace(s[0])
    ensures !AllWhiteSpace(s)
  {
  }

  lemma {:induction false} NoText(s: bytes)
    requires s == []
    ensures AllWhiteSpace(s)
  {
  }

  lemma {:induction false} TailWhiteSpace(s: bytes)
    requires s != [] && IsWhiteSpace(s[0])
    ensures AllWhiteSpace(s) <==> AllWhiteSpace(s[1..])
  {
    assert s == [s[0]] + s[1..];
  }
}
