/** The schema validator: checks a flat object against a declarative field
    schema, either strictly (every required field) or partially (only the
    fields the object carries), and copies the schema-known fields of an object
    into a sanitised one. */
module SchemaValidation {
  import opened Common

  /** A JavaScript value as it can sit under a key of a flat request body. */
  datatype Value = Null | Undefined | Num(n: int) | Str(s: string)

  /** A plain object: its own keys in `Object.keys` order and the value under
      each. `Valid` says the two agree, as they always do for a JavaScript object. */
  datatype Table<V> = Table(keys: seq<string>, entries: map<string, V>) {
    predicate Valid()
    {
      NoDuplicates(keys) && (forall k :: k in entries ==> k in keys) && (forall k :: k in keys ==> k in entries)
    }
  }

  type Record = Table<Value>

  /** What the validator accepts is either an object or some primitive value. */
  datatype Input = Object(record: Record) | Primitive(value: Value)

  /** The kind of a schema field together with its bounds. `maxValue == None`
      stands for an upper bound of `Infinity`. */
  datatype FieldType =
    | IntegerField(minValue: int, maxValue: Option<int>)
    | StringField(minLength: nat, maxLength: nat)
    | TimestampField
    | OtherField

  /** One entry of a schema; `errorMessage` is what its `getErrorMessage()` returns. */
  datatype FieldSpec = FieldSpec(required: bool, fieldType: FieldType, errorMessage: string)

  type Schema = Table<FieldSpec>

  const InvalidInputType := "Constraint violated: Invalid input type\n\n"
  const NoMatchingKeyWithSchema := "Constraint violated: Input has no matching key with schema\n\n"

  function NotInSchema(property: string): string
  {
    "Constraint violated: Property \"" + property + "\" not in schema\n\n"
  }

  function NotInInput(property: string): string
  {
    "Constraint violated: Property \"" + property + "\" not in input\n\n"
  }

  // ---------------------------------------------------------------------------
  // Turning values into the text the `validator` library sees (`value + ""`)

  predicate IsDigit(c: char)
  {
    '0' <= c <= '9'
  }

  predicate AllDigits(s: string)
  {
    s == [] || (AllDigits(s[..|s| - 1]) && IsDigit(s[|s| - 1]))
  }

  function DigitChar(d: nat): char
    requires d < 10
  {
    ('0' as int + d) as char
  }

  /** The decimal digits of `n`, without leading zeros. */
  function ShowNat(n: nat): (s: string)
    ensures |s| > 0 && AllDigits(s) && IsDigit(s[0])
  {
    if n < 10 then
      assert [DigitChar(n)][..0] == [];
      [DigitChar(n)]
    else
      var front := ShowNat(n / 10);
      assert (front + [DigitChar(n % 10)])[..|front|] == front;
      front + [DigitChar(n % 10)]
  }

  /** From this magnitude on, JavaScript writes a number in exponent form. */
  const ExponentFrom: int := 1_000_000_000_000_000_000_000

  /** `s` without its trailing zeros. */
  function TrimZeros(s: string): string
  {
    if |s| > 0 && s[|s| - 1] == '0' then TrimZeros(s[..|s| - 1]) else s
  }

  /** JavaScript's exponent form of a large whole number: the first digit, then
      the remaining digits without trailing zeros after a point when there are
      any, then `e+` and the exponent (for example `1e+21` or `1.5e+22`). */
  function ShowExponent(n: nat): string
  {
    var digits := ShowNat(n);
    var rest := TrimZeros(digits[1..]);
    digits[..1] + (if rest == "" then "" else "." + rest) + "e+" + ShowNat(|digits| - 1)
  }

  /** `String(n)` for an integer `n`: plain decimal digits below 1e21 in
      magnitude, exponent form from there on. */
  function ShowInt(n: int): string
  {
    if n < 0 then "-" + ShowMagnitude(-n) else ShowMagnitude(n)
  }

  /** The text of a whole number after its sign. */
  function ShowMagnitude(m: nat): string
  {
    if m < ExponentFrom then ShowNat(m) else ShowExponent(m)
  }

  /** The number a string of decimal digits denotes (leading zeros allowed). */
  function DigitsValue(s: string): nat
    requires AllDigits(s)
  {
    if s == [] then 0 else DigitsValue(s[..|s| - 1]) * 10 + (s[|s| - 1] as int - '0' as int)
  }

  /** The integer that `validator.isInt` reads from a string: the text must
      match `^[-+]?[0-9]+$` (leading zeros are allowed by default). */
  function ParseInt(s: string): Option<int>
  {
    if |s| > 0 && (s[0] == '-' || s[0] == '+') then
      if |s| > 1 && AllDigits(s[1..]) then
        var m: int := DigitsValue(s[1..]);
        Some(if s[0] == '-' then -m else m)
      else None
    else if |s| > 0 && AllDigits(s) then Some(DigitsValue(s))
    else None
  }

  lemma {:induction false} ShowNatRoundTrip(n: nat)
    ensures DigitsValue(ShowNat(n)) == n
  {
    if n >= 10 {
      var s := ShowNat(n);
      assert s[..|s| - 1] == ShowNat(n / 10);
      ShowNatRoundTrip(n / 10);
    }
  }

  lemma {:induction false} NotAllDigits(s: string, i: nat)
    requires i < |s| && !IsDigit(s[i])
    ensures !AllDigits(s)
    decreases |s|
  {
    if i < |s| - 1 {
      NotAllDigits(s[..|s| - 1], i);
    }
  }

  /** The exponent form starts with a digit and holds an `e`, so it is never a
      run of digits. */
  lemma ExponentNotDigits(n: nat)
    ensures IsDigit(ShowExponent(n)[0])
    ensures !AllDigits(ShowExponent(n))
  {
    var digits := ShowNat(n);
    var rest := TrimZeros(digits[1..]);
    var mantissa := digits[..1] + (if rest == "" then "" else "." + rest);
    assert ShowExponent(n) == mantissa + "e+" + ShowNat(|digits| - 1);
    assert ShowExponent(n)[|mantissa|] == 'e';
    NotAllDigits(ShowExponent(n), |mantissa|);
  }

  /** The text of a whole number starts with a digit; below 1e21 it is a run of
      digits denoting the number, and from there on it is not a run of digits. */
  lemma MagnitudeText(m: nat)
    ensures |ShowMagnitude(m)| > 0 && IsDigit(ShowMagnitude(m)[0])
    ensures m < ExponentFrom ==> AllDigits(ShowMagnitude(m)) && DigitsValue(ShowMagnitude(m)) == m
    ensures ExponentFrom <= m ==> !AllDigits(ShowMagnitude(m))
  {
    if m < ExponentFrom {
      ShowNatRoundTrip(m);
    } else {
      ExponentNotDigits(m);
    }
  }

  /** Reading back the text of an integer gives the integer below 1e21 in
      magnitude; from there on `isInt` rejects the exponent form. */
  lemma ParseShowInt(n: int)
    ensures -ExponentFrom < n < ExponentFrom ==> ParseInt(ShowInt(n)) == Some(n)
    ensures n <= -ExponentFrom || ExponentFrom <= n ==> ParseInt(ShowInt(n)) == None
  {
    if n < 0 {
      ParseNegative(n);
    } else {
      ParseNonNegative(n);
    }
  }

  lemma ParseNegative(n: int)
    requires n < 0
    ensures -ExponentFrom < n ==> ParseInt(ShowInt(n)) == Some(n)
    ensures n <= -ExponentFrom ==> ParseInt(ShowInt(n)) == None
  {
    var t := ShowMagnitude(-n);
    var s := ShowInt(n);
    assert s == "-" + t;
    MagnitudeText(-n);
    assert |s| > 1 && s[0] == '-';
    assert s[1..] == t;
  }

  lemma ParseNonNegative(n: int)
    requires 0 <= n
    ensures n < ExponentFrom ==> ParseInt(ShowInt(n)) == Some(n)
    ensures ExponentFrom <= n ==> ParseInt(ShowInt(n)) == None
  {
    var t := ShowMagnitude(n);
    assert ShowInt(n) == t;
    MagnitudeText(n);
    assert t[0] != '-' && t[0] != '+';
  }

  /** `value + ""` in JavaScript. */
  function Text(v: Value): string
  {
    match v
    case Null => "null"
    case Undefined => "undefined"
    case Num(n) => ShowInt(n)
    case Str(s) => s
  }

  // ---------------------------------------------------------------------------
  // Per-property checks

  /** `hasProperty(obj, property)`: the object carries the key with a value that
      is neither `null` nor `undefined`. A primitive has no such property. */
  predicate HasProperty(obj: Input, property: string)
  {
    obj.Object? && property in obj.record.entries
    && obj.record.entries[property] != Null && obj.record.entries[property] != Undefined
  }

  /** The type switch: `validator.isInt` with an inclusive range, `validator.isLength`
      with an inclusive length range, strict ISO 8601 through the supplied library
      predicate `iso`, and every other type rejected. */
  predicate FieldValid(t: FieldType, v: Value, iso: string -> bool)
  {
    match t
    case IntegerField(lo, hi) =>
      var parsed := ParseInt(Text(v));
      parsed.Some? && lo <= parsed.value && (hi.None? || parsed.value <= hi.value)
    case StringField(lo, hi) => lo <= |Text(v)| <= hi
    case TimestampField => iso(Text(v))
    case OtherField => false
  }

  /** The property is in the schema, present in the object and of the right form. */
  predicate Passes(obj: Input, property: string, schema: Schema, iso: string -> bool)
  {
    property in schema.entries && HasProperty(obj, property)
    && FieldValid(schema.entries[property].fieldType, obj.record.entries[property], iso)
  }

  /** `getPropertyViolation`: empty when the property passes, otherwise one message
      that ends in a blank line. */
  function PropertyViolation(obj: Input, property: string, schema: Schema, iso: string -> bool): (r: string)
    ensures r == "" <==> Passes(obj, property, schema, iso)
  {
    if property !in schema.entries then NotInSchema(property)
    else if !HasProperty(obj, property) then NotInInput(property)
    else if FieldValid(schema.entries[property].fieldType, obj.record.entries[property], iso) then ""
    else schema.entries[property].errorMessage + "\n\n"
  }

  /** Integer fields pass exactly within their inclusive range and below 1e21 in
      magnitude, string fields exactly within their inclusive length range, and
      an unknown type never passes. */
  lemma FieldChecks(t: FieldType, v: Value, iso: string -> bool)
    ensures t.IntegerField? && v.Num? ==>
      (FieldValid(t, v, iso) <==>
        -ExponentFrom < v.n < ExponentFrom && t.minValue <= v.n && (t.maxValue.None? || v.n <= t.maxValue.value))
    ensures t.StringField? && v.Str? ==>
      (FieldValid(t, v, iso) <==> t.minLength <= |v.s| <= t.maxLength)
    ensures t.OtherField? ==> !FieldValid(t, v, iso)
  {
    if v.Num? {
      ParseShowInt(v.n);
    }
  }

  // ---------------------------------------------------------------------------
  // Whole-object validation

  /** `Object.keys(obj).every(key => !(key in schema))`. */
  predicate NoCommonKey(r: Record, schema: Schema)
  {
    forall i :: 0 <= i < |r.keys| ==> r.keys[i] !in schema.entries
  }

  /** The keys checked in partial mode: the object's keys that the schema knows. */
  function KeysInSchema(ks: seq<string>, schema: Schema): (r: seq<string>)
    ensures forall k :: k in r <==> k in ks && k in schema.entries
  {
    if ks == [] then []
    else KeysInSchema(ks[..|ks| - 1], schema)
         + (if ks[|ks| - 1] in schema.entries then [ks[|ks| - 1]] else [])
  }

  /** The keys checked in strict mode: the schema's keys marked `required`. */
  function RequiredKeys(ks: seq<string>, schema: Schema): (r: seq<string>)
    ensures forall k :: k in r <==> k in ks && k in schema.entries && schema.entries[k].required
  {
    if ks == [] then []
    else RequiredKeys(ks[..|ks| - 1], schema)
         + (if ks[|ks| - 1] in schema.entries && schema.entries[ks[|ks| - 1]].required
            then [ks[|ks| - 1]] else [])
  }

  /** The messages of the keys `ks`, in order. */
  function JoinViolations(obj: Input, ks: seq<string>, schema: Schema, iso: string -> bool): string
  {
    if ks == [] then ""
    else JoinViolations(obj, ks[..|ks| - 1], schema, iso) + PropertyViolation(obj, ks[|ks| - 1], schema, iso)
  }

  lemma JoinSnoc(obj: Input, ks: seq<string>, k: string, schema: Schema, iso: string -> bool)
    ensures JoinViolations(obj, ks + [k], schema, iso)
         == JoinViolations(obj, ks, schema, iso) + PropertyViolation(obj, k, schema, iso)
  {
    assert (ks + [k])[..|ks|] == ks;
  }

  /** One step of the partial-mode loop. */
  lemma PartialStep(obj: Input, ks: seq<string>, i: nat, schema: Schema, iso: string -> bool)
    requires i < |ks|
    ensures JoinViolations(obj, KeysInSchema(ks[..i + 1], schema), schema, iso)
         == JoinViolations(obj, KeysInSchema(ks[..i], schema), schema, iso)
            + (if ks[i] in schema.entries then PropertyViolation(obj, ks[i], schema, iso) else "")
  {
    var ks1 := ks[..i + 1];
    assert ks1[..|ks1| - 1] == ks[..i];
    var done := KeysInSchema(ks[..i], schema);
    if ks[i] in schema.entries {
      assert KeysInSchema(ks1, schema) == done + [ks[i]];
      JoinSnoc(obj, done, ks[i], schema, iso);
    } else {
      assert KeysInSchema(ks1, schema) == done;
    }
  }

  /** One step of the strict-mode loop. */
  lemma StrictStep(obj: Input, ks: seq<string>, i: nat, schema: Schema, iso: string -> bool)
    requires i < |ks|
    ensures JoinViolations(obj, RequiredKeys(ks[..i + 1], schema), schema, iso)
         == JoinViolations(obj, RequiredKeys(ks[..i], schema), schema, iso)
            + (if ks[i] in schema.entries && schema.entries[ks[i]].required
               then PropertyViolation(obj, ks[i], schema, iso) else "")
  {
    var ks1 := ks[..i + 1];
    assert ks1[..|ks1| - 1] == ks[..i];
    var done := RequiredKeys(ks[..i], schema);
    if ks[i] in schema.entries && schema.entries[ks[i]].required {
      assert RequiredKeys(ks1, schema) == done + [ks[i]];
      JoinSnoc(obj, done, ks[i], schema, iso);
    } else {
      assert RequiredKeys(ks1, schema) == done;
    }
  }

  /** What `getSchemaViolations` returns. */
  function Violations(obj: Input, schema: Schema, isPartialObj: bool, iso: string -> bool): string
  {
    if obj.Primitive? then InvalidInputType
    else if NoCommonKey(obj.record, schema) then NoMatchingKeyWithSchema
    else if isPartialObj then JoinViolations(obj, KeysInSchema(obj.record.keys, schema), schema, iso)
    else JoinViolations(obj, RequiredKeys(schema.keys, schema), schema, iso)
  }

  /** `getSchemaViolations(obj, schema, isPartialObj)`. */
  method GetSchemaViolations(obj: Input, schema: Schema, isPartialObj: bool, iso: string -> bool)
    returns (errorMessage: string)
    ensures errorMessage == Violations(obj, schema, isPartialObj, iso)
  {
    if obj.Primitive? {
      return InvalidInputType;
    }
    var rec := obj.record;
    if NoCommonKey(rec, schema) {
      return NoMatchingKeyWithSchema;
    }
    if isPartialObj {
      errorMessage := PartialWalk(obj, rec.keys, schema, iso);
    } else {
      errorMessage := StrictWalk(obj, schema, iso);
    }
  }

  /** The partial-mode loop: for every key of the object that the schema knows,
      append its message. */
  method PartialWalk(obj: Input, ks: seq<string>, schema: Schema, iso: string -> bool)
    returns (errorMessage: string)
    ensures errorMessage == JoinViolations(obj, KeysInSchema(ks, schema), schema, iso)
  {
    errorMessage := "";
    var i := 0;
    while i < |ks|
      invariant 0 <= i <= |ks|
      invariant errorMessage == JoinViolations(obj, KeysInSchema(ks[..i], schema), schema, iso)
    {
      var key := ks[i];
      PartialStep(obj, ks, i, schema, iso);
      if key in schema.entries {
        errorMessage := errorMessage + PropertyViolation(obj, key, schema, iso);
      }
      i := i + 1;
    }
    assert ks[..i] == ks;
  }

  /** The strict-mode loop: for every key of the schema marked required, append
      its message. */
  method StrictWalk(obj: Input, schema: Schema, iso: string -> bool)
    returns (errorMessage: string)
    ensures errorMessage == JoinViolations(obj, RequiredKeys(schema.keys, schema), schema, iso)
  {
    errorMessage := "";
    var i := 0;
    while i < |schema.keys|
      invariant 0 <= i <= |schema.keys|
      invariant errorMessage == JoinViolations(obj, RequiredKeys(schema.keys[..i], schema), schema, iso)
    {
      StrictStep(obj, schema.keys, i, schema, iso);
      var key := schema.keys[i];
      var required := key in schema.entries && schema.entries[key].required;
      if required {
        var m := PropertyViolation(obj, key, schema, iso);
        errorMessage := errorMessage + m;
      }
      i := i + 1;
    }
    assert schema.keys[..i] == schema.keys;
  }

  lemma {:induction false} JoinEmpty(obj: Input, ks: seq<string>, schema: Schema, iso: string -> bool)
    ensures JoinViolations(obj, ks, schema, iso) == "" <==>
      forall k :: k in ks ==> PropertyViolation(obj, k, schema, iso) == ""
  {
    if ks != [] {
      var ks' := ks[..|ks| - 1];
      JoinEmpty(obj, ks', schema, iso);
      var lastKey := ks[|ks| - 1];
      var head := JoinViolations(obj, ks', schema, iso);
      var last := PropertyViolation(obj, lastKey, schema, iso);
      assert JoinViolations(obj, ks, schema, iso) == head + last;
      ConcatEmpty(head, last);
      assert forall k :: k in ks <==> k in ks' || k == lastKey by {
        assert ks == ks' + [lastKey];
      }
    }
  }

  /** The joined messages are empty exactly when every checked key passes. */
  lemma JoinEmptyIff(obj: Input, ks: seq<string>, schema: Schema, iso: string -> bool)
    ensures JoinViolations(obj, ks, schema, iso) == "" <==> forall k :: k in ks ==> Passes(obj, k, schema, iso)
  {
    JoinEmpty(obj, ks, schema, iso);
  }

  /** Keys whose messages agree give the same joined message. */
  lemma {:induction false} JoinCongruent(o1: Input, o2: Input, ks: seq<string>, schema: Schema, iso: string -> bool)
    requires forall k :: k in ks ==> PropertyViolation(o1, k, schema, iso) == PropertyViolation(o2, k, schema, iso)
    ensures JoinViolations(o1, ks, schema, iso) == JoinViolations(o2, ks, schema, iso)
  {
    if ks != [] {
      JoinCongruent(o1, o2, ks[..|ks| - 1], schema, iso);
    }
  }

  /** A primitive, or an object (the empty one included) that shares no key with
      the schema, is rejected with a fixed message before any field is looked at. */
  lemma RejectedBeforeFieldChecks(obj: Input, schema: Schema, isPartialObj: bool, iso: string -> bool)
    ensures obj.Primitive? ==> Violations(obj, schema, isPartialObj, iso) == InvalidInputType
    ensures obj.Object? && NoCommonKey(obj.record, schema) ==>
      Violations(obj, schema, isPartialObj, iso) == NoMatchingKeyWithSchema
    ensures obj.Object? && obj.record.keys == [] ==>
      Violations(obj, schema, isPartialObj, iso) == NoMatchingKeyWithSchema
  {
  }

  /** Every required field of the schema is present in the record and valid. */
  predicate RequiredFieldsPass(r: Record, schema: Schema, iso: string -> bool)
  {
    forall k :: k in schema.entries && schema.entries[k].required ==>
      Passes(Object(r), k, schema, iso)
  }

  /** Strict mode accepts exactly when every required schema field is present and
      valid; optional fields play no part. */
  lemma StrictAcceptsIff(r: Record, schema: Schema, iso: string -> bool)
    requires schema.Valid() && !NoCommonKey(r, schema)
    ensures Violations(Object(r), schema, false, iso) == "" <==> RequiredFieldsPass(r, schema, iso)
  {
    var ks := RequiredKeys(schema.keys, schema);
    JoinEmptyIff(Object(r), ks, schema, iso);
    RequiredKeysOfSchema(schema);
  }

  lemma RequiredKeysOfSchema(schema: Schema)
    requires schema.Valid()
    ensures forall k :: k in RequiredKeys(schema.keys, schema) <==> k in schema.entries && schema.entries[k].required
  {
  }

  /** Partial mode accepts exactly when every key the object and the schema share
      is present and valid; schema fields the object lacks, required or not, never
      produce a message. */
  lemma PartialAcceptsIff(r: Record, schema: Schema, iso: string -> bool)
    requires r.Valid() && !NoCommonKey(r, schema)
    ensures Violations(Object(r), schema, true, iso) == "" <==>
      forall k :: k in r.entries && k in schema.entries ==>
        Passes(Object(r), k, schema, iso)
  {
    var ks := KeysInSchema(r.keys, schema);
    JoinEmptyIff(Object(r), ks, schema, iso);
    assert forall k :: k in ks <==> k in r.entries && k in schema.entries;
  }

  /** In strict mode, two objects that agree on the required fields get the same
      message, whatever their optional or unknown fields hold. */
  lemma OptionalFieldsIgnored(r1: Record, r2: Record, schema: Schema, iso: string -> bool)
    requires !NoCommonKey(r1, schema) && !NoCommonKey(r2, schema)
    requires forall k :: k in schema.entries && schema.entries[k].required ==>
      (k in r1.entries <==> k in r2.entries) && (k in r1.entries ==> r1.entries[k] == r2.entries[k])
    ensures Violations(Object(r1), schema, false, iso) == Violations(Object(r2), schema, false, iso)
  {
    JoinCongruent(Object(r1), Object(r2), RequiredKeys(schema.keys, schema), schema, iso);
  }

  /** `ks` with the keys in `drop` taken out, the order of the rest kept. */
  function Without(ks: seq<string>, drop: set<string>): (r: seq<string>)
    ensures forall k :: k in r <==> k in ks && k !in drop
  {
    if ks == [] then []
    else Without(ks[..|ks| - 1], drop) + (if ks[|ks| - 1] in drop then [] else [ks[|ks| - 1]])
  }

  /** Taking out keys the schema does not know leaves the keys partial mode checks,
      and their order, as they were. */
  lemma {:induction false} KeysInSchemaWithout(ks: seq<string>, drop: set<string>, schema: Schema)
    requires forall k :: k in drop ==> k !in schema.entries
    ensures KeysInSchema(Without(ks, drop), schema) == KeysInSchema(ks, schema)
  {
    if ks != [] {
      var front, last := ks[..|ks| - 1], ks[|ks| - 1];
      KeysInSchemaWithout(front, drop, schema);
      if last in drop {
        assert Without(ks, drop) == Without(front, drop) + [] == Without(front, drop);
        assert KeysInSchema(ks, schema) == KeysInSchema(front, schema) + [] == KeysInSchema(front, schema);
      } else {
        var w := Without(front, drop) + [last];
        assert w[..|w| - 1] == Without(front, drop);
      }
    }
  }

  /** An object has no key in common with the schema exactly when partial mode
      would check no key. */
  lemma NoCommonKeyIff(r: Record, schema: Schema)
    ensures NoCommonKey(r, schema) <==> KeysInSchema(r.keys, schema) == []
  {
    if !NoCommonKey(r, schema) {
      var i :| 0 <= i < |r.keys| && r.keys[i] in schema.entries;
      assert r.keys[i] in KeysInSchema(r.keys, schema);
    }
    var ks := KeysInSchema(r.keys, schema);
    if ks != [] {
      assert ks[0] in ks;
      var i :| 0 <= i < |r.keys| && r.keys[i] == ks[0];
    }
  }

  /** A key the schema knows is in both objects or in neither, with one value,
      so it gets the same message in both. */
  lemma SameKnownEntry(r1: Record, r2: Record, extra: set<string>, schema: Schema, k: string, iso: string -> bool)
    requires r1.Valid() && r2.Valid()
    requires Without(r2.keys, extra) == r1.keys
    requires forall k :: k in extra ==> k !in schema.entries
    requires forall k :: k in r1.entries ==> k in r2.entries && r2.entries[k] == r1.entries[k]
    requires k in schema.entries
    ensures k in r1.entries <==> k in r2.entries
    ensures k in r1.entries ==> r1.entries[k] == r2.entries[k]
    ensures PropertyViolation(Object(r1), k, schema, iso) == PropertyViolation(Object(r2), k, schema, iso)
  {
    if k in r2.entries {
      assert k in r2.keys && k !in extra;
      assert k in r1.keys;
    }
  }

  /** Keys the schema does not know, wherever they sit among the others, never
      change the message, in either mode. */
  lemma UnknownKeysIgnored(r1: Record, r2: Record, extra: set<string>, schema: Schema, isPartialObj: bool,
                           iso: string -> bool)
    requires r1.Valid() && r2.Valid()
    requires Without(r2.keys, extra) == r1.keys
    requires forall k :: k in extra ==> k !in schema.entries
    requires forall k :: k in r1.entries ==> k in r2.entries && r2.entries[k] == r1.entries[k]
    ensures Violations(Object(r1), schema, isPartialObj, iso) == Violations(Object(r2), schema, isPartialObj, iso)
  {
    KeysInSchemaWithout(r2.keys, extra, schema);
    NoCommonKeyIff(r1, schema);
    NoCommonKeyIff(r2, schema);
    var ks := if isPartialObj then KeysInSchema(r1.keys, schema) else RequiredKeys(schema.keys, schema);
    forall k | k in ks
      ensures PropertyViolation(Object(r1), k, schema, iso) == PropertyViolation(Object(r2), k, schema, iso)
    {
      SameKnownEntry(r1, r2, extra, schema, k, iso);
    }
    JoinCongruent(Object(r1), Object(r2), ks, schema, iso);
  }

  // ---------------------------------------------------------------------------
  // Sanitising

  /** JavaScript truthiness. An object is always truthy. */
  predicate Truthy(obj: Input)
  {
    match obj
    case Object(_) => true
    case Primitive(v) => !(v == Null || v == Undefined || v == Num(0) || v == Str(""))
  }

  /** The keys among `ks` that the object carries with a non-null value, in order. */
  function PresentKeys(ks: seq<string>, obj: Input): (r: seq<string>)
    ensures forall k :: k in r <==> k in ks && HasProperty(obj, k)
    ensures NoDuplicates(ks) ==> NoDuplicates(r)
  {
    if ks == [] then []
    else
      var ks' := ks[..|ks| - 1];
      var rest := PresentKeys(ks', obj);
      rest + (if HasProperty(obj, ks[|ks| - 1]) then [ks[|ks| - 1]] else [])
  }

  /** The value under a key, for a key the object carries. */
  function ValueAt(obj: Input, k: string): Value
  {
    if obj.Object? && k in obj.record.entries then obj.record.entries[k] else Undefined
  }

  /** What `sanitizeUsingSchema` returns. */
  function Sanitized(obj: Input, schema: Schema): Record
  {
    if !Truthy(obj) then Table([], map[])
    else
      var ks := PresentKeys(schema.keys, obj);
      Table(ks, map k | k in ks :: ValueAt(obj, k))
  }

  /** One step of the sanitising loop. */
  lemma SanitizeStep(obj: Input, ks: seq<string>, i: nat, keys: seq<string>, entries: map<string, Value>)
    requires i < |ks|
    requires keys == PresentKeys(ks[..i], obj)
    requires entries == map k | k in keys :: ValueAt(obj, k)
    ensures HasProperty(obj, ks[i]) ==>
      && PresentKeys(ks[..i + 1], obj) == keys + [ks[i]]
      && entries[ks[i] := obj.record.entries[ks[i]]] == map k | k in keys + [ks[i]] :: ValueAt(obj, k)
    ensures !HasProperty(obj, ks[i]) ==> PresentKeys(ks[..i + 1], obj) == keys
  {
    var ks1 := ks[..i + 1];
    assert ks1[..|ks1| - 1] == ks[..i];
    if HasProperty(obj, ks[i]) {
      EntriesSnoc(obj, keys, ks[i], entries);
    }
  }

  lemma EntriesSnoc(obj: Input, keys: seq<string>, key: string, entries: map<string, Value>)
    requires entries == map k | k in keys :: ValueAt(obj, k)
    requires HasProperty(obj, key)
    ensures entries[key := obj.record.entries[key]] == map k | k in keys + [key] :: ValueAt(obj, k)
  {
    assert ValueAt(obj, key) == obj.record.entries[key];
    assert forall k :: k in keys + [key] <==> k in keys || k == key;
  }

  /** `sanitizeUsingSchema(obj, schema)`. */
  method SanitizeUsingSchema(obj: Input, schema: Schema) returns (validObj: Record)
    ensures validObj == Sanitized(obj, schema)
  {
    var keys: seq<string> := [];
    var entries: map<string, Value> := map[];
    if Truthy(obj) {
      var i := 0;
      while i < |schema.keys|
        invariant 0 <= i <= |schema.keys|
        invariant keys == PresentKeys(schema.keys[..i], obj)
        invariant entries == map k | k in keys :: ValueAt(obj, k)
      {
        var key := schema.keys[i];
        SanitizeStep(obj, schema.keys, i, keys, entries);
        if HasProperty(obj, key) {
          keys := keys + [key];
          entries := entries[key := obj.record.entries[key]];
        }
        i := i + 1;
      }
      assert schema.keys[..i] == schema.keys;
    }
    validObj := Table(keys, entries);
  }

  /** A key is in the sanitised record exactly when the schema knows it and the
      object carries it with a non-null value; its value is copied unchanged, and
      the keys follow the schema's order. A falsy input gives the empty record. */
  lemma SanitizedContents(obj: Input, schema: Schema)
    requires schema.Valid()
    ensures Sanitized(obj, schema).Valid()
    ensures forall k :: k in Sanitized(obj, schema).entries <==> k in schema.entries && HasProperty(obj, k)
    ensures forall k :: k in Sanitized(obj, schema).entries ==> Sanitized(obj, schema).entries[k] == obj.record.entries[k]
    ensures !Truthy(obj) ==> Sanitized(obj, schema) == Table([], map[])
    ensures Truthy(obj) ==> Sanitized(obj, schema).keys == PresentKeys(schema.keys, obj)
  {
  }

  lemma {:induction false} PresentKeysOfSanitized(ks: seq<string>, obj: Input, schema: Schema)
    requires forall k :: k in ks ==> k in schema.keys
    ensures PresentKeys(ks, Object(Sanitized(obj, schema))) == PresentKeys(ks, obj)
  {
    if ks != [] {
      PresentKeysOfSanitized(ks[..|ks| - 1], obj, schema);
    }
  }

  lemma {:induction false} PresentKeysNone(ks: seq<string>, obj: Input)
    requires obj.Primitive?
    ensures PresentKeys(ks, obj) == []
  {
    if ks != [] {
      PresentKeysNone(ks[..|ks| - 1], obj);
    }
  }

  /** Sanitising an already sanitised record changes nothing. */
  lemma SanitizeIdempotent(obj: Input, schema: Schema)
    ensures Sanitized(Object(Sanitized(obj, schema)), schema) == Sanitized(obj, schema)
  {
    var s := Sanitized(obj, schema);
    var t := Sanitized(Object(s), schema);
    PresentKeysOfSanitized(schema.keys, obj, schema);
    if Truthy(obj) {
      assert t.keys == s.keys;
      assert t.entries == s.entries;
    } else {
      PresentKeysNone(schema.keys, obj);
      assert t.entries == map[];
    }
  }

  // ---------------------------------------------------------------------------
  // The plan schema

  const PlanStatusMessage := "Constraint violated: Invalid plan status\n"
    + "Plan status must be 0 (Rejected), 1 (Awaiting Student Changes) "
    + "2 (Awaiting Reivew), 3 (Awaiting Final Review), or 4 (Accepted)."
  const PlanNameMessage := "Constraint violated: Invalid plan name\n"
    + "The plan name must be a string between 5 and 50 characters long."
  const PlanUserMessage := "Constraint violated: Invalid user ID\n"
    + "The user ID associated with this plan must be an integer at least 1."
  const PlanTimestampMessage := "Constraint violated: Invalid plan timestamp\n"
    + "The plan timestamp must be in ISO 8601 format."

  /** `planSchema`. */
  function PlanSchema(): Schema
  {
    Table(["status", "planName", "studentId", "lastUpdated"],
          map["status" := FieldSpec(false, IntegerField(0, Some(4)), PlanStatusMessage),
              "planName" := FieldSpec(true, StringField(5, 50), PlanNameMessage),
              "studentId" := FieldSpec(true, IntegerField(1, None), PlanUserMessage),
              "lastUpdated" := FieldSpec(false, TimestampField, PlanTimestampMessage)])
  }

  /** The bounds of `planSchema`: status is an optional integer in [0, 4], planName
      a required string of 5 to 50 characters, studentId a required integer of at
      least 1 with no upper bound of its own (below 1e21, where the text turns to
      exponent form), lastUpdated an optional ISO 8601 timestamp. */
  lemma PlanSchemaBounds(n: int, s: string, v: Value, iso: string -> bool)
    ensures PlanSchema().keys == ["status", "planName", "studentId", "lastUpdated"]
    ensures !PlanSchema().entries["status"].required
      && (FieldValid(PlanSchema().entries["status"].fieldType, Num(n), iso) <==> 0 <= n <= 4)
    ensures PlanSchema().entries["planName"].required
      && (FieldValid(PlanSchema().entries["planName"].fieldType, Str(s), iso) <==> 5 <= |s| <= 50)
    ensures PlanSchema().entries["studentId"].required
      && (FieldValid(PlanSchema().entries["studentId"].fieldType, Num(n), iso) <==> 1 <= n < ExponentFrom)
    ensures !PlanSchema().entries["lastUpdated"].required
      && (FieldValid(PlanSchema().entries["lastUpdated"].fieldType, v, iso) <==> iso(Text(v)))
  {
    var schema := PlanSchema();
    assert schema.entries["status"] == FieldSpec(false, IntegerField(0, Some(4)), PlanStatusMessage);
    assert schema.entries["studentId"] == FieldSpec(true, IntegerField(1, None), PlanUserMessage);
    FieldChecks(IntegerField(0, Some(4)), Num(n), iso);
    FieldChecks(IntegerField(1, None), Num(n), iso);
  }

  /** The plan schema's keys and entries agree. */
  lemma PlanSchemaValid()
    ensures PlanSchema().Valid()
  {
  }

  /** planName and studentId are the plan schema's only required fields. */
  lemma PlanSchemaRequired()
    ensures forall k :: k in PlanSchema().entries && PlanSchema().entries[k].required ==>
      k == "planName" || k == "studentId"
    ensures "planName" in PlanSchema().entries && "studentId" in PlanSchema().entries
    ensures PlanSchema().entries["planName"] == FieldSpec(true, StringField(5, 50), PlanNameMessage)
    ensures PlanSchema().entries["studentId"] == FieldSpec(true, IntegerField(1, None), PlanUserMessage)
  {
    var schema := PlanSchema();
    forall k | k in schema.entries && schema.entries[k].required
      ensures k == "planName" || k == "studentId"
    {
      assert k in schema.keys;
    }
  }

  /** Strict mode over a schema whose only required fields are a name and an id. */
  lemma TwoRequiredAccepted(r: Record, schema: Schema, name: string, id: string,
                            nameType: FieldType, idType: FieldType, iso: string -> bool)
    requires schema.Valid() && !NoCommonKey(r, schema)
    requires forall k :: k in schema.entries && schema.entries[k].required ==> k == name || k == id
    requires name in schema.entries && schema.entries[name].required && schema.entries[name].fieldType == nameType
    requires id in schema.entries && schema.entries[id].required && schema.entries[id].fieldType == idType
    ensures Violations(Object(r), schema, false, iso) == "" <==>
      HasProperty(Object(r), name) && FieldValid(nameType, r.entries[name], iso)
      && HasProperty(Object(r), id) && FieldValid(idType, r.entries[id], iso)
  {
    StrictAcceptsIff(r, schema, iso);
    if HasProperty(Object(r), name) && FieldValid(nameType, r.entries[name], iso)
       && HasProperty(Object(r), id) && FieldValid(idType, r.entries[id], iso)
    {
      forall k | k in schema.entries && schema.entries[k].required
        ensures Passes(Object(r), k, schema, iso)
      {
        if k == name {
        } else {
          assert k == id;
        }
      }
      assert RequiredFieldsPass(r, schema, iso);
    }
  }

  /** A plan body passes the strict check exactly when it has a valid planName and
      a valid studentId; status and lastUpdated are not looked at. */
  lemma PlanRecordAccepted(r: Record, iso: string -> bool)
    requires !NoCommonKey(r, PlanSchema())
    ensures Violations(Object(r), PlanSchema(), false, iso) == "" <==>
      HasProperty(Object(r), "planName") && FieldValid(StringField(5, 50), r.entries["planName"], iso)
      && HasProperty(Object(r), "studentId") && FieldValid(IntegerField(1, None), r.entries["studentId"], iso)
  {
    PlanSchemaValid();
    PlanSchemaRequired();
    TwoRequiredAccepted(r, PlanSchema(), "planName", "studentId", StringField(5, 50), IntegerField(1, None), iso);
  }
}
