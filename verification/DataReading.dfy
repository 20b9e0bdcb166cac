/** What the reader of the data_info column accepts, and what it makes of it, for any text. */
module DataReading {
  import opened GoStrings
  import opened Options
  import opened DataInfo
  import opened Json
  import opened JsonGrammar
  import opened DataLiteral

  // Of several members with the same key the last one counts

  ghost predicate Last(ms: seq<Member>, key: string, i: nat) {
    i < |ms| && ms[i].key == key && forall j :: i < j < |ms| ==> ms[j].key != key
  }

  ghost predicate Gives(ms: seq<Member>, key: string, v: Value) { exists i: nat :: Last(ms, key, i) && ms[i].value == v }

  ghost predicate Lacks(ms: seq<Member>, key: string) { forall m <- ms :: m.key != key }

  lemma LastOfMore(ms: seq<Member>, m: Member, key: string)
    ensures forall v :: Gives(ms + [m], key, v) <==> if m.key == key then m.value == v else Gives(ms, key, v)
    ensures Lacks(ms + [m], key) <==> m.key != key && Lacks(ms, key)
  {
    var more := ms + [m];
    assert more[|ms|] == m;
    forall i: nat | i < |ms| ensures more[i] == ms[i] && (Last(more, key, i) <==> m.key != key && Last(ms, key, i)) {
      if Last(more, key, i) {
        assert |ms| > i && more[|ms|].key != key;
        forall j | i < j < |ms| ensures ms[j].key != key { assert more[j] == ms[j]; }
      }
    }
    assert Last(more, key, |ms|) <==> m.key == key;
    forall v ensures Gives(more, key, v) <==> if m.key == key then m.value == v else Gives(ms, key, v) {
      if Gives(more, key, v) {
        var i: nat :| Last(more, key, i) && more[i].value == v;
        assert i == |ms| || Last(ms, key, i);
      }
      if m.key != key && Gives(ms, key, v) {
        var i: nat :| Last(ms, key, i) && ms[i].value == v;
        assert Last(more, key, i) && more[i] == ms[i];
      }
    }
    assert more[..|ms|] == ms;
    LackingOfMore(ms, m, key);
  }

  lemma LackingOfMore(ms: seq<Member>, m: Member, key: string)
    ensures Lacks(ms + [m], key) <==> m.key != key && Lacks(ms, key)
  {
    assert forall x :: x in ms + [m] <==> x in ms || x == m;
  }

  lemma GivenOnce(ms: seq<Member>, key: string, v: Value, w: Value)
    requires Gives(ms, key, v)
    ensures Gives(ms, key, w) ==> v == w
    ensures !Lacks(ms, key)
  {
    var i: nat :| Last(ms, key, i) && ms[i].value == v;
    assert ms[i] in ms;
  }

  // Databases

  ghost predicate Is64Bit(v: Value) { v.Int? && -0x8000_0000_0000_0000 <= v.n <= 0x7FFF_FFFF_FFFF_FFFF }

  /** Known fields have their types; others may hold anything. */
  ghost predicate GoodField(m: Member) {
    && (m.key == "behind" || m.key == "ts" ==> Is64Bit(m.value))
    && (m.key == "status" ==> m.value.Str?)
  }

  /** A field that is missing has its zero value. */
  ghost predicate Field(ms: seq<Member>, key: string, v: Value, zero: Value) {
    Gives(ms, key, v) || (Lacks(ms, key) && v == zero)
  }

  lemma FieldOfMore(ms: seq<Member>, m: Member, key: string, v: Value, zero: Value)
    ensures Field(ms + [m], key, v, zero) <==> if m.key == key then m.value == v else Field(ms, key, v, zero)
  {
    hide Gives, Lacks;
    LastOfMore(ms, m, key);
  }

  lemma FieldOnce(ms: seq<Member>, key: string, v: Value, w: Value, zero: Value)
    requires Field(ms, key, v, zero) && Field(ms, key, w, zero)
    ensures v == w
  {
    hide Gives, Lacks;
    if Gives(ms, key, v) { GivenOnce(ms, key, v, w); }
    if Gives(ms, key, w) { GivenOnce(ms, key, w, v); }
  }

  ghost predicate Describes(ms: seq<Member>, db: DBInfo) {
    && (forall m <- ms :: GoodField(m))
    && Field(ms, "behind", Int(db.behind), Int(0))
    && Field(ms, "status", Str(db.status), Str(""))
    && Field(ms, "ts", Int(db.ts), Int(0))
  }

  lemma DescribedOnce(ms: seq<Member>, db: DBInfo, other: DBInfo)
    requires Describes(ms, db) && Describes(ms, other)
    ensures db == other
  {
    hide Field, GoodField;
    FieldOnce(ms, "behind", Int(db.behind), Int(other.behind), Int(0));
    FieldOnce(ms, "status", Str(db.status), Str(other.status), Str(""));
    FieldOnce(ms, "ts", Int(db.ts), Int(other.ts), Int(0));
  }

  lemma {:induction false} FieldsDecoded(ms: seq<Member>)
    ensures DecodeFields(ms).Some? <==> forall m <- ms :: GoodField(m)
    ensures DecodeFields(ms).Some? ==> Describes(ms, DecodeFields(ms).value)
  {
    hide Field, DecodeField;
    if ms == [] {
      NoFields();
    } else {
      var front, m := ms[..|ms| - 1], ms[|ms| - 1];
      assert ms == front + [m];
      assert forall x :: x in ms <==> x in front || x == m;
      FieldsDecoded(front);
      if DecodeFields(front).Some? {
        FieldDecoded(front, DecodeFields(front).value, m);
      }
    }
  }

  lemma FieldDecoded(ms: seq<Member>, db: DBInfo, m: Member)
    requires Describes(ms, db)
    ensures DecodeField(db, m).Some? <==> GoodField(m)
    ensures DecodeField(db, m).Some? ==> Describes(ms + [m], DecodeField(db, m).value)
  {
    hide Field;
    if DecodeField(db, m).Some? {
      var after := DecodeField(db, m).value;
      FieldOfMore(ms, m, "behind", Int(after.behind), Int(0));
      FieldOfMore(ms, m, "status", Str(after.status), Str(""));
      FieldOfMore(ms, m, "ts", Int(after.ts), Int(0));
      assert forall x :: x in ms + [m] <==> x in ms || x == m;
    }
  }

  lemma NoFields()
    ensures Describes([], DBInfo(0, "", 0))
  {
  }

  lemma FieldsExactly(ms: seq<Member>, db: DBInfo)
    ensures DecodeFields(ms) == Some(db) <==> Describes(ms, db)
  {
    hide DecodeFields, Describes;
    FieldsDecoded(ms);
    DescribedGood(ms, db);
    if DecodeFields(ms).Some? && Describes(ms, db) {
      DescribedOnce(ms, db, DecodeFields(ms).value);
    }
  }

  lemma DescribedGood(ms: seq<Member>, db: DBInfo)
    ensures Describes(ms, db) ==> forall m <- ms :: GoodField(m)
  {
  }

  // Maps

  lemma NoMembers()
    ensures DescribesMap([], map[])
  {
  }

  ghost predicate GoodEntry(e: Member) { e.value.Obj? && forall m <- e.value.members :: GoodField(m) }

  ghost predicate GivesInfo(es: seq<Member>, key: string, db: DBInfo) {
    exists ms :: Gives(es, key, Obj(ms)) && Describes(ms, db)
  }

  /** The map has the keys of the members, and for each of them what the last such member describes. */
  ghost predicate DescribesMap(es: seq<Member>, m: DBMap) {
    && (forall e <- es :: GoodEntry(e))
    && (forall key :: key in m <==> !Lacks(es, key))
    && (forall key <- m :: GivesInfo(es, key, m[key]))
  }

  lemma {:induction false} EntriesDecoded(es: seq<Member>)
    ensures DecodeEntries(es).Some? <==> forall e <- es :: GoodEntry(e)
    ensures DecodeEntries(es).Some? ==> DescribesMap(es, DecodeEntries(es).value)
  {
    hide DescribesMap, Describes, DecodeFields, GoodField;
    if es == [] {
      NoMembers();
    } else {
      var front, e := es[..|es| - 1], es[|es| - 1];
      assert es == front + [e];
      assert forall x :: x in es <==> x in front || x == e;
      EntriesDecoded(front);
      assert (forall x <- es :: GoodEntry(x)) <==> (forall x <- front :: GoodEntry(x)) && GoodEntry(e);
      if e.value.Obj? {
        FieldsDecoded(e.value.members);
      }
      if DecodeEntries(es).Some? {
        EntryAdded(front, DecodeEntries(front).value, e, DecodeFields(e.value.members).value);
      }
    }
  }

  lemma EntryAdded(es: seq<Member>, m: DBMap, e: Member, db: DBInfo)
    requires DescribesMap(es, m) && e.value.Obj? && Describes(e.value.members, db)
    ensures DescribesMap(es + [e], m[e.key := db])
  {
    hide Gives, Lacks, Describes, GoodField;
    var after := m[e.key := db];
    DescribedGood(e.value.members, db);
    assert forall x :: x in es + [e] <==> x in es || x == e;
    forall key ensures key in after <==> !Lacks(es + [e], key) {
      LackingOfMore(es, e, key);
    }
    forall key | key in after ensures GivesInfo(es + [e], key, after[key]) {
      LastOfMore(es, e, key);
      if key == e.key {
        assert Gives(es + [e], key, Obj(e.value.members));
      } else {
        var ms :| Gives(es, key, Obj(ms)) && Describes(ms, m[key]);
        assert Gives(es + [e], key, Obj(ms));
      }
    }
  }

  lemma MapDescribedOnce(es: seq<Member>, m: DBMap, other: DBMap)
    requires DescribesMap(es, m) && DescribesMap(es, other)
    ensures m == other
  {
    hide Gives, Lacks, Describes, GoodEntry;
    assert m.Keys == other.Keys;
    forall key | key in m ensures m[key] == other[key] {
      var ms :| Gives(es, key, Obj(ms)) && Describes(ms, m[key]);
      var ns :| Gives(es, key, Obj(ns)) && Describes(ns, other[key]);
      GivenOnce(es, key, Obj(ms), Obj(ns));
      DescribedOnce(ms, m[key], other[key]);
    }
  }

  lemma EntriesExactly(es: seq<Member>, m: DBMap)
    ensures DecodeEntries(es) == Some(m) <==> DescribesMap(es, m)
  {
    hide DecodeEntries, GivesInfo, GoodEntry, Lacks;
    EntriesDecoded(es);
    if DecodeEntries(es).Some? && DescribesMap(es, m) {
      MapDescribedOnce(es, m, DecodeEntries(es).value);
    }
  }

  // The column

  /** Once trimmed and its bare keys quoted, the text is one of an object whose members describe the map. */
  ghost predicate Holds(raw: string, m: DBMap) {
    exists es :: Spells(QuoteBareKeys(TrimQuotes(TrimSpace(raw))), Obj(es)) && DescribesMap(es, m)
  }

  /** Exactly the texts that hold some data are read as that; all others, be they empty or broken, as none. */
  lemma ParseDataInfoExactly(raw: string, m: DBMap)
    requires m != map[]
    ensures ParseDataInfo(raw) == m <==> Holds(raw, m)
  {
    hide TrimSpace, TrimQuotes, QuoteBareKeys, ParseText, DecodeEntries, Spells, DescribesMap;
    var t := TrimQuotes(TrimSpace(raw));
    if ParseDataInfo(raw) == m {
      var es := ParseText(QuoteBareKeys(t)).value.members;
      ParseTextExactly(QuoteBareKeys(t), Obj(es));
      EntriesExactly(es, m);
    }
    if Holds(raw, m) {
      var es :| Spells(QuoteBareKeys(t), Obj(es)) && DescribesMap(es, m);
      ParseTextExactly(QuoteBareKeys(t), Obj(es));
      EntriesExactly(es, m);
      NoDataTexts(t);
      NoEntries(m);
    }
  }

  lemma NoDataTexts(t: string)
    ensures t == "" || ToLower(t) == "null" ==> ParseText(QuoteBareKeys(t)) == None
    ensures t == "{}" ==> ParseText(QuoteBareKeys(t)) == Some(Obj([]))
  {
    hide ToLower, QuoteBareKeys, ParseString, ParseInt, ParseMembers;
    if t == "{}" {
      EmptyMapQuoted();
    } else if t == "" {
      QuoteNothing();
    } else if ToLower(t) == "null" {
      assert Lower(t[0]) == ToLower(t)[0] == 'n';
      QuoteKeepsFirst(t);
      NoValueStarts(QuoteBareKeys(t));
    }
  }

  lemma NoValueStarts(s: string)
    requires s != "" && Lower(s[0]) == 'n'
    ensures ParseText(s) == None
  {
    hide ParseString, ParseMembers;
    SkipWhiteText(s);
    assert !IsDigit(s[0]) && Span(s, IsDigit) == 0;
  }

  lemma EmptyMapQuoted()
    ensures QuoteBareKeys("{}") == "{}" && ParseText("{}") == Some(Obj([]))
  {
    hide QuoteBareKeys;
    QuoteEmptyMap("");
    QuoteNothing();
    assert "{}" + "" == "{}" == Text(Obj([]));
    ParseTextInverts(Obj([]));
  }

  lemma NoEntries(m: DBMap)
    ensures DecodeEntries([]) == Some(m) ==> m == map[]
  {
  }
}
