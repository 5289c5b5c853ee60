/**
 * The code-to-name tables `classParser` and `typeParser`: a Go map lookup
 * whose miss yields the zero value, the empty string. Classes follow
 * section 3.2.4 of RFC 1035 and types section 3.2.2 (a subset).
 */
module Tables {
  import opened Wire
  import opened Results

  /** `classParser`: the mnemonic of a class code, or "" for any other code. */
  function ClassName(code: byte): (name: string)
    ensures name in {"", "IN", "CS", "CH", "HS"}
    ensures name == "" <==> !(1 <= code <= 4)
  {
    var classTypes: map<byte, string> := map[1 := "IN", 2 := "CS", 3 := "CH", 4 := "HS"];
    if code in classTypes then classTypes[code] else ""
  }

  /** `typeParser`: the mnemonic of a type code, or "" for any other code. */
  function TypeName(code: byte): (name: string)
    ensures name in {"", "A", "NS", "CNAME", "MX"}
    ensures name == "" <==> code !in {1, 2, 5, 15}
  {
    var dnsTypes: map<byte, string> := map[1 := "A", 15 := "MX", 5 := "CNAME", 2 := "NS"];
    if code in dnsTypes then dnsTypes[code] else ""
  }

  /** The class code a mnemonic stands for (section 3.2.4 of RFC 1035). */
  function ClassCode(name: string): Option<byte>
  {
    match name
    case "IN" => Some(1)
    case "CS" => Some(2)
    case "CH" => Some(3)
    case "HS" => Some(4)
    case _ => None
  }

  /** The type code a mnemonic stands for (section 3.2.2 of RFC 1035). */
  function TypeCode(name: string): Option<byte>
  {
    match name
    case "A" => Some(1)
    case "NS" => Some(2)
    case "CNAME" => Some(5)
    case "MX" => Some(15)
    case _ => None
  }

  /** `classParser` agrees with the RFC's table in both directions. */
  lemma ClassNameMatchesCode(code: byte, name: string)
    requires name != ""
    ensures ClassName(code) == name <==> ClassCode(name) == Some(code)
  {
  }

  /** `typeParser` agrees with the RFC's table in both directions. */
  lemma TypeNameMatchesCode(code: byte, name: string)
    requires name != ""
    ensures TypeName(code) == name <==> TypeCode(name) == Some(code)
  {
  }
}
