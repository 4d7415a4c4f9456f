/** Names of parameters and of policy memory: NVS keys of at most 15 characters. */
module Names {
  const NAME_MAX: nat := 15

  predicate NameChar(c: char) {
    'a' <= c <= 'z' || 'A' <= c <= 'Z' || '0' <= c <= '9' || c == '_' || c == '-'
  }

  predicate ValidName(name: string) {
    1 <= |name| <= NAME_MAX && forall i | 0 <= i < |name| :: NameChar(name[i])
  }
}
