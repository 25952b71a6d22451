/** The field map that the extractor produces and the validator reads: a
    Python `dict` from field names to the strings found on the card. */
module Fields {

  import opened Wrappers

  type FieldMap = map<string, string>

  const IdNumberKey: string := "idNumber"
  const NameKey: string := "name"
  const NameArabicKey: string := "nameArabic"
  const DateOfBirthKey: string := "dateOfBirth"
  const ExpiryDateKey: string := "expiryDate"
  const IssueDateKey: string := "issueDate"
  const NationalityKey: string := "nationality"
  const GenderKey: string := "gender"
  const CardNumberKey: string := "cardNumber"

  /** The keys are distinct strings: their lengths and first letters tell
      them apart. */
  lemma KeysDistinct()
    ensures |IdNumberKey| == 8 && |NameKey| == 4 && |NameArabicKey| == 10 && |DateOfBirthKey| == 11
    ensures |ExpiryDateKey| == 10 && |IssueDateKey| == 9 && |NationalityKey| == 11
    ensures |GenderKey| == 6 && |CardNumberKey| == 10
    ensures NameArabicKey[0] == 'n' && ExpiryDateKey[0] == 'e' && CardNumberKey[0] == 'c'
    ensures DateOfBirthKey[0] == 'd' && NationalityKey[0] == 'n'
  {
  }

  /** `data.get(k)` is truthy: the key is there and its string is not empty. */
  predicate Present(m: FieldMap, k: string) {
    k in m && m[k] != ""
  }

  /** `data.get(k, '')`: the value, or the empty string when the key is absent. */
  function Get(m: FieldMap, k: string): (r: string)
    ensures r != "" <==> Present(m, k)
    ensures k in m ==> r == m[k]
  {
    if k in m then m[k] else ""
  }

  /** `if v: data[k] = v` for a value that is set only when a rule fired. */
  function SetIf(m: FieldMap, k: string, v: Option<string>): (r: FieldMap)
    ensures r.Keys == if v.Some? then m.Keys + {k} else m.Keys
    ensures v.Some? ==> r[k] == v.value
    ensures forall j :: j in m && j != k ==> r[j] == m[j]
    ensures v.None? ==> r == m
  {
    match v
    case None => m
    case Some(x) => m[k := x]
  }
}
