/** Counting the bytes of a JSON text without building it. */
module WireBytes {
  import opened JsonValues
  import opened Utf8
  import opened WireText

  class Counter {
    var bytes: nat
    const maximum: nat

    constructor (maximum: nat)
      ensures bytes == 0 && this.maximum == maximum
    {
      this.maximum := maximum;
      bytes := 0;
    }

    /** The counter after `cost` more bytes: exact while it is within the maximum, past it
        otherwise. */
    twostate predicate Spent(cost: nat, admitted: bool)
      reads this
    {
      if admitted && old(bytes) + cost <= maximum then bytes == old(bytes) + cost else bytes > maximum
    }

    method String(value: Text)
      modifies this`bytes
      ensures Spent(2 + StringBytes(value), true)
    {
      bytes := bytes + 2;
      var index := 0;
      while index < |value| && bytes <= maximum
        invariant index <= |value|
        invariant old(bytes) + 2 <= bytes
        invariant bytes <= maximum || bytes <= old(bytes) + 2 + StringBytes(value)
        invariant bytes + StringBytes(value[index..]) == old(bytes) + 2 + StringBytes(value)
        decreases |value| - index
      {
        var code := value[index];
        ghost var rest := value[index..];
        assert rest[1..] == value[index + 1..];
        if Paired(rest) {
          assert rest[2..] == value[index + 2..];
        }
        if code == 34 || code == 92 || code in [8, 9, 10, 12, 13] {
          bytes := bytes + 2;
        } else if code < 32 {
          bytes := bytes + 6;
        } else if code < 128 {
          bytes := bytes + 1;
        } else if code < 2048 {
          bytes := bytes + 2;
        } else if 0xD800 <= code <= 0xDBFF && index + 1 < |value| && 0xDC00 <= value[index + 1] <= 0xDFFF {
          bytes := bytes + 4;
          index := index + 1;
        } else {
          bytes := bytes + if 0xD800 <= code <= 0xDFFF then 6 else 3;
        }
        index := index + 1;
      }
    }

    method Walk(value: Json, depth: nat)
      modifies this`bytes
      ensures Spent(Bytes(value), depth + Depth(value) <= DEPTH_LIMIT)
      decreases value
    {
      if bytes > maximum {
        return;
      }
      if depth > DEPTH_LIMIT {
        bytes := maximum + 1;
        return;
      }
      match value {
        case Str(text) => String(text);
        case Undefined => bytes := bytes + 9;
        case Null => bytes := bytes + 4;
        case Bool(b) => bytes := bytes + if b then 4 else 5;
        case Num(digits) => bytes := bytes + |digits|;
        case Arr(items) =>
          bytes := bytes + 2;
          WalkItems(items, depth);
        case Obj(fields) =>
          bytes := bytes + 2;
          WalkFields(fields, depth);
      }
    }

    method WalkItems(items: seq<Json>, depth: nat)
      requires depth <= DEPTH_LIMIT
      modifies this`bytes
      ensures Spent(ItemsBytes(items, |items|), depth + ItemsDepth(items, |items|) <= DEPTH_LIMIT)
      decreases items
    {
      var index := 0;
      while index < |items| && bytes <= maximum
        invariant index <= |items|
        invariant Spent(ItemsBytes(items, index), depth + ItemsDepth(items, index) <= DEPTH_LIMIT)
      {
        if index > 0 {
          bytes := bytes + 1;
        }
        Walk(items[index], depth + 1);
        index := index + 1;
      }
      ItemsGrow(items, index);
    }

    method WalkFields(fields: seq<Field>, depth: nat)
      requires depth <= DEPTH_LIMIT
      modifies this`bytes
      ensures Spent(FieldsBytes(fields, |fields|), depth + FieldsDepth(fields, |fields|) <= DEPTH_LIMIT)
      decreases fields
    {
      var index, count := 0, 0;
      while index < |fields|
        invariant index <= |fields| && count == Defined(fields, index)
        invariant Spent(FieldsBytes(fields, index), depth + FieldsDepth(fields, index) <= DEPTH_LIMIT)
      {
        if bytes > maximum {
          break;
        }
        var field := fields[index];
        index := index + 1;
        if field.value == Undefined {
          continue;
        }
        if count > 0 {
          bytes := bytes + 1;
        }
        count := count + 1;
        String(field.key);
        bytes := bytes + 1;
        Walk(field.value, depth + 1);
      }
      FieldsGrow(fields, index);
    }
  }

  lemma {:induction false} ItemsGrow(items: seq<Json>, n: nat)
    requires n <= |items|
    ensures ItemsBytes(items, n) <= ItemsBytes(items, |items|) && ItemsDepth(items, n) <= ItemsDepth(items, |items|)
    decreases |items| - n
  {
    if n < |items| {
      ItemsGrow(items, n + 1);
    }
  }

  lemma {:induction false} FieldsGrow(fields: seq<Field>, n: nat)
    requires n <= |fields|
    ensures FieldsBytes(fields, n) <= FieldsBytes(fields, |fields|)
            && FieldsDepth(fields, n) <= FieldsDepth(fields, |fields|)
    decreases |fields| - n
  {
    if n < |fields| {
      FieldsGrow(fields, n + 1);
    }
  }

  /** A value is within the limit if and only if it nests at most 64 deep and the UTF-8 bytes
      of its JSON text are at most `maximum`. */
  method WireWithin(value: Json, maximum: nat) returns (within: bool)
    requires Writable(value)
    ensures within <==> Depth(value) <= DEPTH_LIMIT && |Encode(JsonText(value))| <= maximum
  {
    var counter := new Counter(maximum);
    counter.Walk(value, 0);
    WireSize(value);
    within := counter.bytes <= maximum;
  }
}
