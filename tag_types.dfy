/**
 * The closed enumeration of tag types (the `TagType` enum of both loaders),
 * the lookup of a member's name by its stored value, and the name of the
 * table that holds the tags of a type.
 */
module TagTypes {
  import opened Outcomes

  datatype TagType = Alphanumerical | Timestamp | Time | Date | NumericalInt | NumericalDec | Json

  /** The member's value, which is what a tagset stores in its `tagtype_id` column. */
  function Value(t: TagType): int {
    match t
    case Alphanumerical => 1
    case Timestamp => 2
    case Time => 3
    case Date => 4
    case NumericalInt => 5
    case NumericalDec => 6
    case Json => 7
  }

  lemma ValueInjective(t: TagType, u: TagType)
    requires Value(t) == Value(u)
    ensures t == u
  {
  }

  /** The member's name as the enum declares it. */
  function Name(t: TagType): string {
    match t
    case Alphanumerical => "ALPHANUMERICAL"
    case Timestamp => "TIMESTAMP"
    case Time => "TIME"
    case Date => "DATE"
    case NumericalInt => "NUMERICAL_INT"
    case NumericalDec => "NUMERICAL_DEC"
    case Json => "JSON"
  }

  /** The members in declaration order, the order in which iterating over the enum visits them. */
  const Members: seq<TagType> := [Alphanumerical, Timestamp, Time, Date, NumericalInt, NumericalDec, Json]

  /** The search loop of `get_tagtype_name_by_value`: the name of the first member carrying `value`. */
  function FindName(members: seq<TagType>, value: int): Result<string> {
    if members == [] then Err(UnknownTagType(value))
    else if Value(members[0]) == value then Ok(Name(members[0]))
    else FindName(members[1..], value)
  }

  /** `TagType.get_tagtype_name_by_value`: a member's name, or the ValueError for any other value. */
  function NameByValue(value: int): Result<string> {
    FindName(Members, value)
  }

  /** The search finds a name exactly when some member carries the value, and then it is the first such member's. */
  lemma {:induction false} FindNameFindsFirst(members: seq<TagType>, value: int)
    ensures FindName(members, value).Ok? <==> exists i :: 0 <= i < |members| && Value(members[i]) == value
    ensures FindName(members, value).Err? ==> FindName(members, value) == Err(UnknownTagType(value))
    ensures FindName(members, value).Ok? ==>
      exists i :: 0 <= i < |members| && Value(members[i]) == value && FindName(members, value).value == Name(members[i])
              && forall j :: 0 <= j < i ==> Value(members[j]) != value
  {
    if members != [] && Value(members[0]) != value {
      FindNameFindsFirst(members[1..], value);
      if FindName(members, value).Ok? {
        var i :| 1 <= i + 1 < |members| && Value(members[1..][i]) == value
                  && FindName(members, value).value == Name(members[1..][i])
                  && forall j :: 0 <= j < i ==> Value(members[1..][j]) != value;
        assert Value(members[i + 1]) == value;
        assert forall j :: 0 <= j < i + 1 ==> Value(members[j]) != value by {
          forall j | 0 <= j < i + 1 ensures Value(members[j]) != value {
            if j > 0 { assert members[j] == members[1..][j - 1]; }
          }
        }
      } else {
        forall i | 0 <= i < |members| ensures Value(members[i]) != value {
          if i > 0 { assert members[i] == members[1..][i - 1]; }
        }
      }
    }
  }

  /** The lookup succeeds exactly for the values 1 to 7 and raises the ValueError for every other value. */
  lemma NameByValueDefinedOnOneToSeven(value: int)
    ensures NameByValue(value).Ok? <==> 1 <= value <= 7
    ensures !(1 <= value <= 7) ==> NameByValue(value) == Err(UnknownTagType(value))
  {
    FindNameFindsFirst(Members, value);
    if 1 <= value <= 7 {
      assert Value(Members[value - 1]) == value;
    }
  }

  /** Looking a member up by its own value gives back its own name. */
  lemma NameByValueRoundTrip(t: TagType)
    ensures NameByValue(Value(t)) == Ok(Name(t))
  {
    FindNameFindsFirst(Members, Value(t));
    assert Value(Members[Value(t) - 1]) == Value(t);
    var i :| 0 <= i < |Members| && Value(Members[i]) == Value(t) && NameByValue(Value(t)).value == Name(Members[i]);
    assert Members[i] == t by { ValueInjective(Members[i], t); }
  }

  /** ASCII lower-casing, which is all `str.lower()` does to the enum names. */
  function LowerChar(c: char): char {
    if 'A' <= c <= 'Z' then (c as int + 32) as char else c
  }

  function Lower(s: string): string {
    seq(|s|, i requires 0 <= i < |s| => LowerChar(s[i]))
  }

  /** The table holding the tags of a type: the lower-cased type name followed by `_tags`. */
  function TableName(typeName: string): string {
    Lower(typeName) + "_tags"
  }

  /** The tables of the text and time types, written out. */
  lemma TableNamesWrittenOut()
    ensures TableName(Name(Alphanumerical)) == "alphanumerical_tags"
    ensures TableName(Name(Timestamp)) == "timestamp_tags"
    ensures TableName(Name(Time)) == "time_tags"
    ensures TableName(Name(Date)) == "date_tags"
  {
    LowerOfName(Alphanumerical);
    LowerOfName(Timestamp);
    LowerOfName(Time);
    LowerOfName(Date);
  }

  /** The tables of the numeric and JSON types, written out; the decimal one is `numerical_dec_tags`. */
  lemma NumericTableNamesWrittenOut()
    ensures TableName(Name(NumericalInt)) == "numerical_int_tags"
    ensures TableName(Name(NumericalDec)) == "numerical_dec_tags"
    ensures TableName(Name(Json)) == "json_tags"
  {
    LowerOfName(NumericalInt);
    LowerOfName(NumericalDec);
    LowerOfName(Json);
  }

  /** Lower-casing a member name, character by character. */
  lemma LowerOfName(t: TagType)
    ensures |Lower(Name(t))| == |Name(t)|
    ensures forall i | 0 <= i < |Name(t)| :: Lower(Name(t))[i] == LowerChar(Name(t)[i])
  {
  }

  /** Different tag types are stored in different tables. */
  lemma TableNamesDistinct(t: TagType, u: TagType)
    requires t != u
    ensures TableName(Name(t)) != TableName(Name(u))
  {
    TableNamesWrittenOut();
    NumericTableNamesWrittenOut();
  }
}
