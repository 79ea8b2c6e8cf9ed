/**
 * The legal combinations of codec.json fields: which BACnet object types
 * (ANSI/ASHRAE Standard 135, clause 12) each access mode and each data
 * type admits, and which value types each data type admits.
 */
module ValidationRules {

  const AccessModeRules: map<string, seq<string>> := map[
    "R" := ["binary_input_object", "analog_input_object", "multistate_value_object", "character_string_value_object"],
    "W" := ["binary_output_object", "analog_output_object", "multistate_value_object", "character_string_value_object"],
    "RW" := ["binary_value_object", "analog_value_object", "multistate_value_object", "character_string_value_object"]
  ]

  const DataTypeBacnetRules: map<string, seq<string>> := map[
    "BOOL" := ["binary_input_object", "binary_output_object", "binary_value_object"],
    "NUMBER" := ["analog_input_object", "analog_output_object", "analog_value_object"],
    "ENUM" := ["multistate_value_object"],
    "STRING" := ["character_string_value_object"]
  ]

  const DataTypeValueRules: map<string, seq<string>> := map[
    "BOOL" := ["UINT8"],
    "NUMBER" := ["INT8", "UINT8", "INT16", "UINT16", "INT32", "UINT32", "FLOAT"],
    "TEXT" := ["STRING"],
    "ENUM" := ["UINT8", "UINT16", "INT16"]
  ]

  /** The object types a table row admits, as a set. */
  function Admitted(rules: map<string, seq<string>>, key: string): (s: set<string>)
    ensures key in rules ==> forall t :: t in s <==> t in rules[key]
    ensures key !in rules ==> s == {}
  {
    if key in rules then set t | t in rules[key] else {}
  }

  lemma AccessModeTable()
    ensures AccessModeRules.Keys == {"R", "W", "RW"}
    ensures Admitted(AccessModeRules, "R")
      == {"binary_input_object", "analog_input_object", "multistate_value_object", "character_string_value_object"}
  {
    var r := Admitted(AccessModeRules, "R");
    assert r == {"binary_input_object", "analog_input_object", "multistate_value_object", "character_string_value_object"} by {
      forall t ensures t in r <==> t in AccessModeRules["R"] {}
    }
  }

  /** Every access mode admits the multistate value and character string objects, and no mode admits a multistate input or output. */
  lemma AccessModeShared()
    ensures forall m | m in AccessModeRules ::
      "multistate_value_object" in AccessModeRules[m] && "character_string_value_object" in AccessModeRules[m]
    ensures forall m | m in AccessModeRules ::
      "multistate_input_object" !in AccessModeRules[m] && "multistate_output_object" !in AccessModeRules[m]
  {
  }

  lemma DataTypeBacnetTable()
    ensures DataTypeBacnetRules.Keys == {"BOOL", "NUMBER", "ENUM", "STRING"}
    ensures "TEXT" !in DataTypeBacnetRules
    ensures Admitted(DataTypeBacnetRules, "ENUM") == {"multistate_value_object"}
    ensures Admitted(DataTypeBacnetRules, "BOOL") == {"binary_input_object", "binary_output_object", "binary_value_object"}
  {
    var e := Admitted(DataTypeBacnetRules, "ENUM");
    assert e == {"multistate_value_object"} by {
      forall t ensures t in e <==> t in DataTypeBacnetRules["ENUM"] {}
    }
    var b := Admitted(DataTypeBacnetRules, "BOOL");
    assert b == {"binary_input_object", "binary_output_object", "binary_value_object"} by {
      forall t ensures t in b <==> t in DataTypeBacnetRules["BOOL"] {}
    }
  }

  lemma DataTypeValueTable()
    ensures DataTypeValueRules.Keys == {"BOOL", "NUMBER", "TEXT", "ENUM"}
    ensures Admitted(DataTypeValueRules, "BOOL") == {"UINT8"}
    ensures Admitted(DataTypeValueRules, "TEXT") == {"STRING"}
    ensures Admitted(DataTypeValueRules, "ENUM") == {"UINT8", "UINT16", "INT16"}
  {
    var b := Admitted(DataTypeValueRules, "BOOL");
    assert b == {"UINT8"} by {
      forall t ensures t in b <==> t in DataTypeValueRules["BOOL"] {}
    }
    var x := Admitted(DataTypeValueRules, "TEXT");
    assert x == {"STRING"} by {
      forall t ensures t in x <==> t in DataTypeValueRules["TEXT"] {}
    }
    var e := Admitted(DataTypeValueRules, "ENUM");
    assert e == {"UINT8", "UINT16", "INT16"} by {
      forall t ensures t in e <==> t in DataTypeValueRules["ENUM"] {}
    }
  }

  /** The NUMBER row as a set. */
  lemma NumberRow()
    ensures Admitted(DataTypeValueRules, "NUMBER") == {"INT8", "UINT8", "INT16", "UINT16", "INT32", "UINT32", "FLOAT"}
  {
    var n := Admitted(DataTypeValueRules, "NUMBER");
    forall t ensures t in n <==> t in DataTypeValueRules["NUMBER"] {}
  }

  /** NUMBER admits seven numeric value types, and not STRING. */
  lemma NumberValueTypes()
    ensures |Admitted(DataTypeValueRules, "NUMBER")| == 7
    ensures "STRING" !in Admitted(DataTypeValueRules, "NUMBER")
  {
    NumberRow();
  }
}
