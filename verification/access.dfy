/** The access resolver: a submitted password is compared, ignoring letter
    case, against two fixed keys and yields the role it unlocks, if any. */
module Access {
  import opened Types

  /** The key that unlocks the Aliya role. */
  const AliyaKey: string := "Bunnylovesme"
  /** The key that unlocks the Admin role. */
  const AdminKey: string := "Aliyalovesme"

  /** Lower-cases one character (ASCII letters only). */
  function LowerChar(c: char): char
  {
    if 'A' <= c <= 'Z' then (c as int + 32) as char else c
  }

  /** Lower-cases a string character by character: the result has no
      capital letter left, and every character that was not a capital is
      kept where it was. */
  function ToLower(s: string): (r: string)
    ensures |r| == |s|
    ensures forall i :: 0 <= i < |r| ==> !('A' <= r[i] <= 'Z')
    ensures forall i :: 0 <= i < |s| && !('A' <= s[i] <= 'Z') ==> r[i] == s[i]
  {
    seq(|s|, i requires 0 <= i < |s| => LowerChar(s[i]))
  }

  /** Lower-casing twice is lower-casing once. */
  lemma ToLowerIdempotent(s: string)
    ensures ToLower(ToLower(s)) == ToLower(s)
  {
    var t := ToLower(s);
    forall i | 0 <= i < |s|
      ensures ToLower(t)[i] == t[i]
    {
      assert t[i] == LowerChar(s[i]);
    }
  }

  /** Two passwords that differ only in letter case. */
  predicate SameIgnoringCase(p: string, q: string)
  {
    ToLower(p) == ToLower(q)
  }

  /** The keys in lower case, as the comparison sees them. */
  lemma LoweredKeys()
    ensures ToLower(AliyaKey) == "bunnylovesme"
    ensures ToLower(AdminKey) == "aliyalovesme"
  {
    var a := ToLower(AliyaKey);
    assert a[0] == 'b';
    assert a == "bunnylovesme" by {
      forall i | 0 <= i < 12 ensures a[i] == "bunnylovesme"[i] {
        assert a[i] == LowerChar(AliyaKey[i]);
      }
    }
    var b := ToLower(AdminKey);
    assert b == "aliyalovesme" by {
      forall i | 0 <= i < 12 ensures b[i] == "aliyalovesme"[i] {
        assert b[i] == LowerChar(AdminKey[i]);
      }
    }
  }

  /** The key of each role. */
  function KeyOf(m: UserMode): string
  {
    match m
    case Aliya => AliyaKey
    case Admin => AdminKey
  }

  /** Resolves a submitted password to the role it unlocks. The Aliya key is
      tried first; the two lowered keys differ, so the order never decides. */
  function Resolve(password: string): (r: Option<UserMode>)
    ensures r == Some(Aliya) <==> ToLower(password) == "bunnylovesme"
    ensures r == Some(Admin) <==> ToLower(password) == "aliyalovesme"
    ensures r == None <==>
              ToLower(password) != "bunnylovesme" && ToLower(password) != "aliyalovesme"
  {
    LoweredKeys();
    if ToLower(password) == ToLower(AliyaKey) then Some(Aliya)
    else if ToLower(password) == ToLower(AdminKey) then Some(Admin)
    else None
  }

  /** Letter case never matters: passwords that agree ignoring case resolve alike. */
  lemma ResolveIgnoresCase(p: string, q: string)
    requires SameIgnoringCase(p, q)
    ensures Resolve(p) == Resolve(q)
  {
  }

  /** A role is unlocked exactly by the passwords equal to its key ignoring case. */
  lemma ResolveExactlyKey(password: string, m: UserMode)
    ensures Resolve(password) == Some(m) <==> SameIgnoringCase(password, KeyOf(m))
  {
    LoweredKeys();
  }
}
