/** Replacement of the hash symbol in cron specs by values derived from the job name. */
module ScheduleHash {
  import opened Text

  const HASH_SYMBOL: char := '~'

  function NameHash(name: string): nat {
    if name == [] then 0 else NameHash(name[..|name| - 1]) + name[|name| - 1] as int
  }

  predicate IsTimezone(part: string) {
    "TZ=" <= part || "CRON_TZ=" <= part
  }

  predicate IsDescriptor(part: string) {
    "@" <= part
  }

  /** strings.ReplaceAll for the one-character hash symbol. */
  function ReplaceHash(part: string, value: string): string {
    if part == [] then ""
    else (if part[0] == HASH_SYMBOL then value else [part[0]]) + ReplaceHash(part[1..], value)
  }

  /** Position of parts[i] among the cron fields: the timezone parts before it do not count. */
  function FieldIndex(parts: seq<string>, i: nat): nat
    requires i <= |parts|
  {
    if i == 0 then 0
    else FieldIndex(parts, i - 1) + if IsTimezone(parts[i - 1]) then 0 else 1
  }

  function FieldValue(field: nat, hash: nat): nat {
    match field
    case 2 => hash % 24
    case 3 => hash % 28 + 1
    case 4 => hash % 12 + 1
    case 5 => hash % 7
    case _ => hash % 60
  }

  /** The values a cron field admits: seconds, minutes, hours, days that every month has,
      months, week days. */
  predicate InFieldRange(field: nat, v: int) {
    match field
    case 0 => 0 <= v < 60
    case 1 => 0 <= v < 60
    case 2 => 0 <= v < 24
    case 3 => 1 <= v <= 28
    case 4 => 1 <= v <= 12
    case 5 => 0 <= v <= 6
    case _ => 0 <= v < 60
  }

  function HashedPart(parts: seq<string>, i: nat, hash: nat): string
    requires i < |parts|
  {
    if IsTimezone(parts[i]) then parts[i]
    else ReplaceHash(parts[i], Itoa(FieldValue(FieldIndex(parts, i), hash)))
  }

  function HashedParts(parts: seq<string>, hash: nat): seq<string> {
    seq(|parts|, i requires 0 <= i < |parts| => HashedPart(parts, i, hash))
  }

  predicate HasDescriptor(parts: seq<string>) {
    exists i | 0 <= i < |parts| :: IsDescriptor(parts[i])
  }

  /** What scheduleHash computes, part by part and without the loop. */
  function Hashed(spec: string, name: string): string {
    var parts := Split(spec, ' ');
    if HasDescriptor(parts) then spec else Join(HashedParts(parts, NameHash(name)), " ")
  }

  /** The hash of a name adds up over its characters. */
  lemma {:induction false} HashAdds(a: string, b: string)
    ensures NameHash(a + b) == NameHash(a) + NameHash(b)
    ensures |a| == 1 ==> NameHash(a) == a[0] as int
  {
    if b == [] {
      assert a + b == a;
    } else {
      HashAdds(a, b[..|b| - 1]);
      assert (a + b)[..|a + b| - 1] == a + b[..|b| - 1];
    }
    if |a| == 1 {
      assert NameHash(a[..0]) == 0;
    }
  }

  /** The values of a field go round its range, from the least one on: minutes and seconds to 59, hours to 23,
      days from 1 to 28, months from 1 to 12, week days from 0 to 6. */
  lemma FieldGoesRound(field: nat, hash: nat)
    ensures var least := if field == 3 || field == 4 then 1 else 0;
            var greatest := if field == 2 then 23 else if field == 3 then 28 else if field == 4 then 12
                            else if field == 5 then 6 else 59;
            && FieldValue(field, 0) == least
            && FieldValue(field, hash + 1) ==
               if FieldValue(field, hash) == greatest then least else FieldValue(field, hash) + 1
  {
    match field
    case 2 => NextRemainder(hash, 24);
    case 3 => NextRemainder(hash, 28);
    case 4 => NextRemainder(hash, 12);
    case 5 => NextRemainder(hash, 7);
    case _ => NextRemainder(hash, 60);
  }

  lemma NextRemainder(h: nat, n: nat)
    requires n > 1
    ensures (h + 1) % n == if h % n == n - 1 then 0 else h % n + 1
  {
    var q, r := h / n, h % n;
    var p, s := (h + 1) / n, (h + 1) % n;
    assert p * n + s == h + 1 == q * n + r + 1;
    if r == n - 1 {
      assert (q + 1) * n == q * n + n;
      RemainderUnique(n, p, s, q + 1, 0);
    } else {
      RemainderUnique(n, p, s, q, r + 1);
    }
  }

  lemma RemainderUnique(n: nat, p: int, s: nat, q: int, r: nat)
    requires p * n + s == q * n + r && s < n && r < n
    ensures s == r
  {
    NoSmaller(n, p, s, q, r);
    NoSmaller(n, q, r, p, s);
  }

  lemma NoSmaller(n: nat, p: int, s: nat, q: int, r: nat)
    requires p * n + s == q * n + r && s < n && r < n
    ensures p <= q
  {
    assert (p - q) * n == p * n - q * n == r - s;
    if p > q {
      OnceOrMore(p - q, n);
    }
  }

  lemma OnceOrMore(a: nat, n: nat)
    requires a >= 1
    ensures a * n >= n
  {
    assert a * n == (a - 1) * n + n;
  }

  /** The field of a part is the number of parts before it that are no timezones. */
  lemma {:induction false} FieldIndexCounts(parts: seq<string>, i: nat)
    requires i <= |parts|
    ensures FieldIndex(parts, i) == |set j | 0 <= j < i && !("TZ=" <= parts[j]) && !("CRON_TZ=" <= parts[j])|
  {
    if i > 0 {
      FieldIndexCounts(parts, i - 1);
      var before := set j | 0 <= j < i - 1 && !("TZ=" <= parts[j]) && !("CRON_TZ=" <= parts[j]);
      assert (set j | 0 <= j < i && !("TZ=" <= parts[j]) && !("CRON_TZ=" <= parts[j]))
             == if IsTimezone(parts[i - 1]) then before else before + {i - 1};
    }
  }

  method SumOfCodes(name: string) returns (hash: nat)
    ensures hash == NameHash(name)
  {
    hash := 0;
    for i := 0 to |name|
      invariant hash == NameHash(name[..i])
    {
      hash := hash + name[i] as int;
      assert name[..i + 1][..i] == name[..i];
    }
    assert name[..|name|] == name;
  }

  method FieldHash(partIndex: nat, hash: nat) returns (partHash: nat)
    ensures partHash == FieldValue(partIndex, hash) && InFieldRange(partIndex, partHash)
  {
    partHash := hash;
    match partIndex {
      case 2 => partHash := partHash % 24;
      case 3 => partHash := partHash % 28 + 1;
      case 4 => partHash := partHash % 12 + 1;
      case 5 => partHash := partHash % 7;
      case _ => partHash := partHash % 60;
    }
  }

  method ScheduleHash(name: string, spec: string) returns (hashed: string)
    ensures hashed == Hashed(spec, name)
  {
    if HASH_SYMBOL !in spec {
      UnhashedSpec(spec, name);
      return spec;
    }
    var hash := SumOfCodes(name);
    ghost var original := Split(spec, ' ');
    var parts := Split(spec, ' ');
    var partIndex := 0;
    for index := 0 to |parts|
      invariant |parts| == |original|
      invariant partIndex == FieldIndex(original, index)
      invariant forall i | 0 <= i < index :: !IsDescriptor(original[i])
      invariant forall i | 0 <= i < index :: parts[i] == HashedPart(original, i, hash)
      invariant forall i | index <= i < |parts| :: parts[i] == original[i]
    {
      var part := parts[index];
      if "@" <= part {
        return spec;
      }
      if "TZ=" <= part || "CRON_TZ=" <= part {
        continue;
      }
      if HASH_SYMBOL in part {
        var partHash := FieldHash(partIndex, hash);
        parts := parts[index := ReplaceHash(part, Itoa(partHash))];
      } else {
        ReplaceNothing(part, Itoa(FieldValue(partIndex, hash)));
      }
      partIndex := partIndex + 1;
    }
    assert parts == HashedParts(original, hash);
    return Join(parts, " ");
  }

  // ----- Helper lemmas on single parts -----

  lemma {:induction false} ReplaceNothing(part: string, value: string)
    requires HASH_SYMBOL !in part
    ensures ReplaceHash(part, value) == part
  {
    if part != [] {
      ReplaceNothing(part[1..], value);
    }
  }

  /** Replacing splits at the symbol and glues with the value: nothing else of the text moves. */
  lemma {:induction false} ReplaceKeepsText(part: string, value: string)
    ensures ReplaceHash(part, value) == Join(Split(part, HASH_SYMBOL), value)
  {
    if part != [] {
      ReplaceKeepsText(part[1..], value);
      var rest := Split(part[1..], HASH_SYMBOL);
      var pieces := Split(part, HASH_SYMBOL);
      if part[0] == HASH_SYMBOL {
        assert pieces[1..] == rest;
      } else if |rest| > 1 {
        assert pieces[1..] == rest[1..];
      }
    }
  }

  lemma {:induction false} ReplaceMembers(part: string, value: string, c: char)
    requires c in ReplaceHash(part, value)
    ensures c in value || (c in part && c != HASH_SYMBOL)
  {
    if part[0] != HASH_SYMBOL && c == part[0] {
    } else if c !in value {
      ReplaceMembers(part[1..], value, c);
    }
  }

  /** Digits cannot complete a prefix made of other characters. */
  lemma {:induction false} ReplaceKeepsPrefix(part: string, value: string, prefix: string)
    requires value != [] && AllDigits(value)
    requires forall c | c in prefix :: !IsDigit(c) && c != HASH_SYMBOL
    ensures prefix <= ReplaceHash(part, value) <==> prefix <= part
  {
    if part != [] && prefix != [] {
      var replaced := ReplaceHash(part, value);
      if part[0] == HASH_SYMBOL {
        assert replaced[0] == value[0];
        assert prefix[0] in prefix;
      } else {
        ReplaceKeepsPrefix(part[1..], value, prefix[1..]);
        assert replaced[1..] == ReplaceHash(part[1..], value);
        assert prefix == [prefix[0]] + prefix[1..] && part == [part[0]] + part[1..];
        assert replaced == [replaced[0]] + replaced[1..];
      }
    }
  }

  lemma HashedPartKind(parts: seq<string>, i: nat, hash: nat)
    requires i < |parts|
    ensures IsTimezone(HashedPart(parts, i, hash)) == IsTimezone(parts[i])
    ensures IsDescriptor(HashedPart(parts, i, hash)) == IsDescriptor(parts[i])
    ensures forall c | c in HashedPart(parts, i, hash) :: c in parts[i] || IsDigit(c)
    ensures !IsTimezone(parts[i]) ==> HASH_SYMBOL !in HashedPart(parts, i, hash)
  {
    if !IsTimezone(parts[i]) {
      var value := Itoa(FieldValue(FieldIndex(parts, i), hash));
      ReplaceKeepsPrefix(parts[i], value, "TZ=");
      ReplaceKeepsPrefix(parts[i], value, "CRON_TZ=");
      ReplaceKeepsPrefix(parts[i], value, "@");
      forall c | c in HashedPart(parts, i, hash)
        ensures c in value || (c in parts[i] && c != HASH_SYMBOL)
      {
        ReplaceMembers(parts[i], value, c);
      }
    }
  }

  lemma UnhashedSpec(spec: string, name: string)
    requires HASH_SYMBOL !in spec
    ensures Hashed(spec, name) == spec
  {
    var parts, hash := Split(spec, ' '), NameHash(name);
    JoinOfSplit(spec, ' ');
    forall i | 0 <= i < |parts|
      ensures HashedPart(parts, i, hash) == parts[i]
    {
      if HASH_SYMBOL in parts[i] {
        SplitMembers(spec, ' ', i, HASH_SYMBOL);
      }
      ReplaceNothing(parts[i], Itoa(FieldValue(FieldIndex(parts, i), hash)));
    }
    assert HashedParts(parts, hash) == parts;
  }

  lemma {:induction false} SplitMembers(s: string, sep: char, i: nat, c: char)
    requires i < |Split(s, sep)| && c in Split(s, sep)[i]
    ensures c in s
  {
    if s != [] {
      var parts, rest := Split(s, sep), Split(s[1..], sep);
      if i == 0 && s[0] != sep {
        assert parts[0] == [s[0]] + rest[0];
        if c != s[0] {
          SplitMembers(s[1..], sep, 0, c);
        }
      } else if s[0] != sep {
        assert parts[i] == rest[i];
        SplitMembers(s[1..], sep, i, c);
      } else {
        assert i > 0 && parts[i] == rest[i - 1];
        SplitMembers(s[1..], sep, i - 1, c);
      }
    }
  }

  /** The parts of the hashed spec are exactly the hashed parts. */
  lemma SplitOfHashed(spec: string, name: string)
    requires !HasDescriptor(Split(spec, ' '))
    ensures Split(Hashed(spec, name), ' ') == HashedParts(Split(spec, ' '), NameHash(name))
  {
    var parts, hash := Split(spec, ' '), NameHash(name);
    var hashed := HashedParts(parts, hash);
    forall i | 0 <= i < |hashed|
      ensures ' ' !in hashed[i]
    {
      HashedPartKind(parts, i, hash);
    }
    SplitOfJoin(hashed, ' ');
  }

  lemma {:induction false} HashedFieldIndex(parts: seq<string>, hash: nat, i: nat)
    requires i <= |parts|
    ensures FieldIndex(HashedParts(parts, hash), i) == FieldIndex(parts, i)
  {
    if i > 0 {
      HashedFieldIndex(parts, hash, i - 1);
      HashedPartKind(parts, i - 1, hash);
    }
  }

  // ----- Properties -----

  /** The number of parts never changes, and a spec with a descriptor part is left alone. */
  lemma PartsKept(spec: string, name: string)
    ensures |Split(Hashed(spec, name), ' ')| == |Split(spec, ' ')|
    ensures HasDescriptor(Split(spec, ' ')) ==> Hashed(spec, name) == spec
  {
    if !HasDescriptor(Split(spec, ' ')) {
      SplitOfHashed(spec, name);
    }
  }

  /** Every symbol of a cron field becomes one value that this field admits, the text between the
      symbols stays, and timezone parts stay as they are. */
  lemma FieldsHashed(spec: string, name: string, i: nat)
    requires !HasDescriptor(Split(spec, ' '))
    requires i < |Split(spec, ' ')|
    ensures var before, after := Split(spec, ' '), Split(Hashed(spec, name), ' ');
            && |after| == |before|
            && (IsTimezone(before[i]) ==> after[i] == before[i])
            && (!IsTimezone(before[i]) ==>
                 && HASH_SYMBOL !in after[i]
                 && var v := FieldValue(FieldIndex(before, i), NameHash(name));
                    InFieldRange(FieldIndex(before, i), v) && after[i] == Join(Split(before[i], HASH_SYMBOL), Itoa(v)))
  {
    var before, hash := Split(spec, ' '), NameHash(name);
    SplitOfHashed(spec, name);
    HashedPartKind(before, i, hash);
    var v := FieldValue(FieldIndex(before, i), hash);
    assert InFieldRange(FieldIndex(before, i), v);
    ReplaceKeepsText(before[i], Itoa(v));
  }

  lemma Idempotent(spec: string, name: string)
    ensures Hashed(Hashed(spec, name), name) == Hashed(spec, name)
  {
    var parts, hash := Split(spec, ' '), NameHash(name);
    if !HasDescriptor(parts) {
      var hashed := HashedParts(parts, hash);
      SplitOfHashed(spec, name);
      forall i | 0 <= i < |parts|
        ensures !IsDescriptor(hashed[i]) && HashedPart(hashed, i, hash) == hashed[i]
      {
        HashedPartKind(parts, i, hash);
        if !IsTimezone(parts[i]) {
          ReplaceNothing(hashed[i], Itoa(FieldValue(FieldIndex(hashed, i), hash)));
        }
      }
      assert HashedParts(hashed, hash) == hashed;
    }
  }

  /** Hashing is the same with and without a timezone in front. */
  lemma TimezoneInFront(zone: string, spec: string, name: string)
    requires IsTimezone(zone) && ' ' !in zone
    ensures Hashed(zone + " " + spec, name) == zone + " " + Hashed(spec, name)
  {
    var rest, hash := Split(spec, ' '), NameHash(name);
    SplitOfPrefix(zone, spec, ' ');
    assert Split(zone + " " + spec, ' ') == [zone] + rest;
    DescriptorShifted(zone, rest);
    if !HasDescriptor(rest) {
      HashedShifted(zone, rest, hash);
      assert ([zone] + HashedParts(rest, hash))[1..] == HashedParts(rest, hash);
    }
  }

  lemma DescriptorShifted(zone: string, rest: seq<string>)
    requires IsTimezone(zone)
    ensures HasDescriptor([zone] + rest) == HasDescriptor(rest)
  {
    var all := [zone] + rest;
    assert zone[0] == "TZ="[0] || zone[0] == "CRON_TZ="[0];
    assert zone[0] != "@"[0];
    assert all[0] == zone && !IsDescriptor(zone);
    if HasDescriptor(rest) {
      var i :| 0 <= i < |rest| && IsDescriptor(rest[i]);
      assert IsDescriptor(all[i + 1]);
    }
  }

  lemma HashedShifted(zone: string, rest: seq<string>, hash: nat)
    requires IsTimezone(zone)
    ensures HashedParts([zone] + rest, hash) == [zone] + HashedParts(rest, hash)
  {
    var all := [zone] + rest;
    forall i | 0 <= i < |rest|
      ensures HashedPart(all, i + 1, hash) == HashedPart(rest, i, hash)
    {
      ShiftedFieldIndex(zone, rest, i);
    }
    assert HashedPart(all, 0, hash) == zone;
  }

  lemma {:induction false} ShiftedFieldIndex(zone: string, rest: seq<string>, i: nat)
    requires IsTimezone(zone) && i <= |rest|
    ensures FieldIndex([zone] + rest, i + 1) == FieldIndex(rest, i)
  {
    if i == 0 {
      assert FieldIndex([zone] + rest, 0) == 0;
    } else {
      ShiftedFieldIndex(zone, rest, i - 1);
      assert ([zone] + rest)[i] == rest[i - 1];
    }
  }
}
