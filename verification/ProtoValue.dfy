/** JSON trees as google.protobuf.Value dictionaries (src/ojs/transport/grpc/transport.py). */
module ProtoValue {
  import opened Wrappers
  import opened JsonValue

  function One(name: string, value: Json): Json {
    Obj(map[name := value])
  }

  /** `_to_proto_value`: one dictionary with one key for each node. */
  function ToProto(value: Json): Json {
    match value
    case Null => One("null_value", Int(0))
    case Str(_) => One("string_value", value)
    case Bool(_) => One("bool_value", value)
    case Int(_) => One("number_value", value)
    case Real(_) => One("number_value", value)
    case Arr(items) =>
      One("list_value", One("values", Arr(seq(|items|, i requires 0 <= i < |items| => ToProto(items[i])))))
    case Obj(fields) =>
      One("struct_value", One("fields", Obj(map k | k in fields :: ToProto(fields[k]))))
  }

  function Get(fields: map<string, Json>, name: string, default: Json): Json {
    if name in fields then fields[name] else default
  }

  /** `_from_proto_value`; None where Python raises or iterates something that is not a
      list or an object. */
  function FromProto(value: Json): Option<Json>
    decreases value
  {
    if !value.Obj? || value.fields == map[] then Some(value)
    else if "string_value" in value.fields then Some(value.fields["string_value"])
    else if "number_value" in value.fields then Some(value.fields["number_value"])
    else if "bool_value" in value.fields then Some(value.fields["bool_value"])
    else if "null_value" in value.fields then Some(Null)
    else if "list_value" in value.fields then
      var list := value.fields["list_value"];
      if !list.Obj? then None else
        var values := Get(list.fields, "values", Arr([]));
        if !values.Arr? then None else FromList(value, values.items)
    else if "struct_value" in value.fields then
      var struct := value.fields["struct_value"];
      if !struct.Obj? then None else
        var fields := Get(struct.fields, "fields", Obj(map[]));
        if !fields.Obj? then None else FromFields(value, fields.fields)
    else Some(value)
  }

  function FromList(whole: Json, items: seq<Json>): Option<Json>
    requires forall i | 0 <= i < |items| :: items[i] < whole
    decreases whole, 0
  {
    if forall i | 0 <= i < |items| :: FromProto(items[i]).Some?
    then Some(Arr(seq(|items|, i requires 0 <= i < |items| => FromProto(items[i]).value)))
    else None
  }

  function FromFields(whole: Json, fields: map<string, Json>): Option<Json>
    requires forall k | k in fields :: fields[k] < whole
    decreases whole, 0
  {
    if forall k | k in fields :: FromProto(fields[k]).Some?
    then Some(Obj(map k | k in fields :: FromProto(fields[k]).value))
    else None
  }

  lemma KindsDiffer()
    ensures "list_value" !in {"string_value", "number_value", "bool_value", "null_value"}
    ensures "struct_value" !in {"string_value", "number_value", "bool_value", "null_value", "list_value"}
    ensures "null_value" !in {"string_value", "number_value", "bool_value"}
    ensures "bool_value" !in {"string_value", "number_value"} && "number_value" != "string_value"
  {
    assert "list_value"[0] == 'l' && "null_value"[0] == 'n' && "bool_value"[0] == 'b' && "number_value"[0] == 'n';
    assert "string_value"[3] == 'i' && "struct_value"[3] == 'u' && "string_value"[0] == "struct_value"[0] == 's';
    assert "null_value"[2] == 'l' && "number_value"[2] == 'm';
  }

  function WrappedList(items: seq<Json>): Json {
    One("list_value", One("values", Arr(items)))
  }

  function WrappedFields(fields: map<string, Json>): Json {
    One("struct_value", One("fields", Obj(fields)))
  }

  lemma ListReads(items: seq<Json>)
    ensures forall i | 0 <= i < |items| :: items[i] < WrappedList(items)
    ensures FromProto(WrappedList(items)) == FromList(WrappedList(items), items)
  {
    KindsDiffer();
    var list := WrappedList(items).fields["list_value"];
    assert list.fields["values"] == Arr(items);
  }

  lemma FieldsRead(fields: map<string, Json>)
    ensures forall k | k in fields :: fields[k] < WrappedFields(fields)
    ensures FromProto(WrappedFields(fields)) == FromFields(WrappedFields(fields), fields)
  {
    KindsDiffer();
    var struct := WrappedFields(fields).fields["struct_value"];
    assert struct.fields["fields"] == Obj(fields);
  }

  lemma ScalarReads(value: Json)
    requires !value.Arr? && !value.Obj?
    ensures FromProto(ToProto(value)) == Some(value)
  {
    KindsDiffer();
    var kind := if value.Null? then "null_value" else if value.Str? then "string_value"
                else if value.Bool? then "bool_value" else "number_value";
    assert kind in ToProto(value).fields;
  }

  /** Reading a converted tree gives the tree back, at every depth, with booleans, whole
      numbers and fractions each as they were. */
  lemma {:induction false} ValueRoundTrip(value: Json)
    ensures FromProto(ToProto(value)) == Some(value)
  {
    if value.Arr? {
      forall i | 0 <= i < |value.items| ensures FromProto(ToProto(value.items[i])) == Some(value.items[i]) {
        ValueRoundTrip(value.items[i]);
      }
      ListRoundTrip(value);
    } else if value.Obj? {
      forall k | k in value.fields ensures FromProto(ToProto(value.fields[k])) == Some(value.fields[k]) {
        ValueRoundTrip(value.fields[k]);
      }
      FieldsRoundTrip(value);
    } else {
      ScalarReads(value);
    }
  }

  lemma ListRoundTrip(value: Json)
    requires value.Arr?
    requires forall i | 0 <= i < |value.items| :: FromProto(ToProto(value.items[i])) == Some(value.items[i])
    ensures FromProto(ToProto(value)) == Some(value)
  {
    var sent := seq(|value.items|, i requires 0 <= i < |value.items| => ToProto(value.items[i]));
    assert ToProto(value) == WrappedList(sent);
    ListReads(sent);
    ListBack(sent, value.items);
  }

  lemma FieldsRoundTrip(value: Json)
    requires value.Obj? && forall k | k in value.fields :: FromProto(ToProto(value.fields[k])) == Some(value.fields[k])
    ensures FromProto(ToProto(value)) == Some(value)
  {
    var sent := map k | k in value.fields :: ToProto(value.fields[k]);
    assert ToProto(value) == WrappedFields(sent);
    FieldsRead(sent);
    FieldsBack(sent, value.fields);
  }

  lemma ListBack(sent: seq<Json>, items: seq<Json>)
    requires |sent| == |items| && forall i | 0 <= i < |items| :: FromProto(sent[i]) == Some(items[i])
    requires forall i | 0 <= i < |sent| :: sent[i] < WrappedList(sent)
    ensures FromList(WrappedList(sent), sent) == Some(Arr(items))
  {
    assert seq(|sent|, i requires 0 <= i < |sent| => FromProto(sent[i]).value) == items;
  }

  lemma FieldsBack(sent: map<string, Json>, fields: map<string, Json>)
    requires sent.Keys == fields.Keys && forall k | k in fields :: FromProto(sent[k]) == Some(fields[k])
    requires forall k | k in sent :: sent[k] < WrappedFields(sent)
    ensures FromFields(WrappedFields(sent), sent) == Some(Obj(fields))
  {
    assert (map k | k in sent :: FromProto(sent[k]).value) == fields;
  }

  // ------------------------------------------------------------------- well-formed messages

  /** A google.protobuf.Value: exactly one kind is set, and holds a value of that kind. */
  predicate IsValue(proto: Json)
    decreases proto
  {
    && proto.Obj?
    && (|| (proto.fields.Keys == {"null_value"} && proto.fields["null_value"] == Int(0))
        || (proto.fields.Keys == {"string_value"} && proto.fields["string_value"].Str?)
        || (proto.fields.Keys == {"bool_value"} && proto.fields["bool_value"].Bool?)
        || (proto.fields.Keys == {"number_value"} && IsNumber(proto.fields["number_value"]))
        || (proto.fields.Keys == {"list_value"} && IsList(proto, proto.fields["list_value"]))
        || (proto.fields.Keys == {"struct_value"} && IsStruct(proto, proto.fields["struct_value"])))
  }

  predicate IsNumber(value: Json) {
    value.Int? || value.Real?
  }

  predicate IsList(whole: Json, list: Json)
    requires list < whole
    decreases whole, 0
  {
    && list.Obj? && list.fields.Keys == {"values"} && list.fields["values"].Arr?
    && forall i | 0 <= i < |list.fields["values"].items| :: IsValue(list.fields["values"].items[i])
  }

  predicate IsStruct(whole: Json, struct: Json)
    requires struct < whole
    decreases whole, 0
  {
    && struct.Obj? && struct.fields.Keys == {"fields"} && struct.fields["fields"].Obj?
    && forall k | k in struct.fields["fields"].fields :: IsValue(struct.fields["fields"].fields[k])
  }

  lemma OneIs(proto: Json, name: string)
    requires proto.Obj? && proto.fields.Keys == {name}
    ensures proto == One(name, proto.fields[name])
  {
    assert name in proto.fields.Keys;
    assert proto.fields == map[name := proto.fields[name]];
  }

  /** What is written is a well-formed message. */
  lemma {:induction false} WritesValue(value: Json)
    ensures IsValue(ToProto(value))
  {
    if value.Arr? {
      var sent := seq(|value.items|, i requires 0 <= i < |value.items| => ToProto(value.items[i]));
      assert ToProto(value) == WrappedList(sent);
      forall i | 0 <= i < |sent| ensures IsValue(sent[i]) {
        WritesValue(value.items[i]);
      }
      assert WrappedList(sent).fields["list_value"] == One("values", Arr(sent));
    } else if value.Obj? {
      var sent := map k | k in value.fields :: ToProto(value.fields[k]);
      assert ToProto(value) == WrappedFields(sent);
      forall k | k in sent ensures IsValue(sent[k]) {
        WritesValue(value.fields[k]);
      }
      assert WrappedFields(sent).fields["struct_value"] == One("fields", Obj(sent));
    }
  }

  /** Writing what was read from a well-formed message gives the message back: the kind of every
      value is told apart on the wire. */
  lemma {:induction false} MessageRoundTrip(proto: Json)
    requires IsValue(proto)
    ensures FromProto(proto).Some? && ToProto(FromProto(proto).value) == proto
    decreases proto
  {
    KindsDiffer();
    if proto.fields.Keys == {"list_value"} {
      OneIs(proto, "list_value");
      var list := proto.fields["list_value"];
      OneIs(list, "values");
      var items := list.fields["values"].items;
      assert proto == WrappedList(items);
      ListReads(items);
      forall i | 0 <= i < |items| ensures FromProto(items[i]).Some? && ToProto(FromProto(items[i]).value) == items[i] {
        MessageRoundTrip(items[i]);
      }
      ListWritten(items);
    } else if proto.fields.Keys == {"struct_value"} {
      OneIs(proto, "struct_value");
      var struct := proto.fields["struct_value"];
      OneIs(struct, "fields");
      var fields := struct.fields["fields"].fields;
      assert proto == WrappedFields(fields);
      FieldsRead(fields);
      forall k | k in fields ensures FromProto(fields[k]).Some? && ToProto(FromProto(fields[k]).value) == fields[k] {
        MessageRoundTrip(fields[k]);
      }
      FieldsWritten(fields);
    } else {
      ScalarWritten(proto);
    }
  }

  lemma ScalarWritten(proto: Json)
    requires IsValue(proto) && proto.fields.Keys != {"list_value"} && proto.fields.Keys != {"struct_value"}
    ensures FromProto(proto).Some? && ToProto(FromProto(proto).value) == proto
  {
    KindsDiffer();
    var name :| name in proto.fields;
    assert proto.fields.Keys == {name};
    OneIs(proto, name);
  }

  lemma ListWritten(items: seq<Json>)
    requires forall i | 0 <= i < |items| :: items[i] < WrappedList(items)
    requires forall i | 0 <= i < |items| :: FromProto(items[i]).Some? && ToProto(FromProto(items[i]).value) == items[i]
    ensures var read := FromList(WrappedList(items), items); read.Some? && ToProto(read.value) == WrappedList(items)
  {
    var read := seq(|items|, i requires 0 <= i < |items| => FromProto(items[i]).value);
    assert FromList(WrappedList(items), items) == Some(Arr(read));
    ListOf(read, items);
  }

  lemma ListOf(values: seq<Json>, items: seq<Json>)
    requires |values| == |items| && forall i | 0 <= i < |items| :: ToProto(values[i]) == items[i]
    ensures ToProto(Arr(values)) == WrappedList(items)
  {
    var sent := seq(|values|, i requires 0 <= i < |values| => ToProto(values[i]));
    assert sent == items;
    var value := Arr(values);
    assert ToProto(value) == One("list_value", One("values", Arr(seq(|value.items|, i requires 0 <= i < |value.items|
                                                                                     => ToProto(value.items[i])))));
  }

  lemma FieldsWritten(fields: map<string, Json>)
    requires forall k | k in fields :: fields[k] < WrappedFields(fields)
    requires forall k | k in fields :: FromProto(fields[k]).Some? && ToProto(FromProto(fields[k]).value) == fields[k]
    ensures var read := FromFields(WrappedFields(fields), fields);
      read.Some? && ToProto(read.value) == WrappedFields(fields)
  {
    var read := map k | k in fields :: FromProto(fields[k]).value;
    assert (map k | k in read :: ToProto(read[k])) == fields;
  }
}
