/**
 * The string helpers of `SemanticHelper`: `replaceFirst`, `getFieldNameByMethodName` and
 * `normalize` (internal type descriptor to dotted class name).
 */
module NameHelpers {
  import opened Wrappers
  import opened JavaStrings

  // ---------------------------------------------------------------- replaceFirst

  /**
   * `replaceFirst(old, identify, replace)`: null when `identify` does not occur; otherwise
   * its first occurrence is replaced and the text around it is kept.
   */
  function ReplaceFirst(text: string, id: string, rep: string): (r: Option<string>)
    ensures r.None? <==> !Contains(text, id)
    ensures r.Some? ==> |r.value| == |text| - |id| + |rep|
    ensures r.Some? ==> exists i | 0 <= i <= |text| - |id| ::
      && OccursAt(text, id, i) && (forall j | 0 <= j < i :: !OccursAt(text, id, j))
      && r.value[..i] == text[..i] && r.value[i..i + |rep|] == rep && r.value[i + |rep|..] == text[i + |id|..]
  {
    match IndexOf(text, id)
    case None => None
    case Some(start) =>
      var r := text[..start] + rep + text[start + |id|..];
      assert r[..start] == text[..start] && r[start..start + |rep|] == rep && r[start + |rep|..] == text[start + |id|..];
      Some(r)
  }

  /** Only the first occurrence is replaced: later ones are left in place. */
  lemma ReplaceFirstOfSplice(a: string, id: string, b: string, rep: string)
    requires |id| > 0 && id[0] !in a
    ensures ReplaceFirst(a + id + b, id, rep) == Some(a + rep + b)
  {
    IndexOfAfterSegment(a, id, b);
    var s := a + id + b;
    assert s[..|a|] == a && s[|a| + |id|..] == b;
  }

  /** Replacing a text by itself gives back the input whenever the text occurs. */
  lemma ReplaceFirstBySelf(text: string, id: string)
    ensures Contains(text, id) ==> ReplaceFirst(text, id, id) == Some(text)
  {
    if Contains(text, id) {
      var i := IndexOf(text, id).value;
      assert text[..i] + id + text[i + |id|..] == text by {
        assert text[i..i + |id|] == id;
        assert text == text[..i] + text[i..i + |id|] + text[i + |id|..];
      }
    }
  }

  // ---------------------------------------------------------------- getFieldNameByMethodName

  /**
   * `getFieldNameByMethodName(methodName)`: `get`, `set` (tried first) or `is` is removed;
   * null for any other name, for an empty remainder and for a remainder starting with a
   * lower-case letter; otherwise the remainder with its first character lower-cased.
   */
  function FieldNameByMethodName(m: string): (r: Option<string>)
    ensures r.Some? ==> AccessorPrefix(m) > 0 && |r.value| == |m| - AccessorPrefix(m)
    ensures r.Some? ==> 0 < |r.value| <= |m| - 2 && !IsLowerAscii(m[|m| - |r.value|])
    ensures r.Some? ==> (StartsWith(m, "get") || StartsWith(m, "set") || StartsWith(m, "is"))
    ensures r.Some? ==> r.value[0] == ToLowerAscii(m[|m| - |r.value|]) && r.value[1..] == m[|m| - |r.value| + 1..]
    ensures !StartsWith(m, "get") && !StartsWith(m, "set") && !StartsWith(m, "is") ==> r.None?
  {
    var rest :=
      if StartsWith(m, "set") || StartsWith(m, "get") then Some(m[3..])
      else if StartsWith(m, "is") then Some(m[2..])
      else None;
    if rest.None? || rest.value == "" then None
    else if IsLowerAscii(rest.value[0]) then None
    else Some([ToLowerAscii(rest.value[0])] + rest.value[1..])
  }

  /** The length of the accessor prefix `get`/`set` (3) or `is` (2) that `m` starts with, 0 for none. */
  function AccessorPrefix(m: string): nat {
    if StartsWith(m, "set") || StartsWith(m, "get") then 3
    else if StartsWith(m, "is") then 2
    else 0
  }

  /**
   * For every name: a field name comes back exactly when there is an accessor prefix and the
   * remainder after it is non-empty and does not start with a lower-case letter; it is that
   * remainder with its first character lower-cased.
   */
  lemma FieldNameByMethodNameExactly(m: string)
    ensures var k := AccessorPrefix(m);
      FieldNameByMethodName(m).Some? <==> k > 0 && |m| > k && !IsLowerAscii(m[k])
    ensures var k := AccessorPrefix(m);
      FieldNameByMethodName(m).Some? ==> FieldNameByMethodName(m).value == [ToLowerAscii(m[k])] + m[k + 1..]
  {
    var k := AccessorPrefix(m);
    if k > 0 && |m| > k {
      assert m[k..][0] == m[k];
      assert m[k..][1..] == m[k + 1..];
    }
  }

  /** An empty remainder, or one that starts with a lower-case letter, gives null. */
  lemma FieldNameRejectsRemainder(m: string)
    requires AccessorPrefix(m) > 0
    requires |m| == AccessorPrefix(m) || IsLowerAscii(m[AccessorPrefix(m)])
    ensures FieldNameByMethodName(m).None?
  {
    FieldNameByMethodNameExactly(m);
  }

  /** `getXxx`, `setXxx` and `isXxx` give back `xxx` for a field name starting with a lower-case letter. */
  lemma AccessorNamesGiveFieldName(f: string)
    requires |f| > 0 && IsLowerAscii(f[0])
    ensures var cap := [ToUpperAscii(f[0])] + f[1..];
      && FieldNameByMethodName("get" + cap) == Some(f)
      && FieldNameByMethodName("set" + cap) == Some(f)
      && FieldNameByMethodName("is" + cap) == Some(f)
  {
    var cap := [ToUpperAscii(f[0])] + f[1..];
    assert ToLowerAscii(cap[0]) == f[0];
    assert cap[1..] == f[1..];
    assert [f[0]] + f[1..] == f;
    assert ("get" + cap)[..3] == "get" && ("get" + cap)[3..] == cap;
    assert ("set" + cap)[..3] == "set" && ("set" + cap)[3..] == cap;
    assert ("is" + cap)[..2] == "is" && ("is" + cap)[2..] == cap;
    assert ("is" + cap)[..3] != "get" && ("is" + cap)[..3] != "set" by {
      assert ("is" + cap)[..3][0] == 'i';
    }
  }

  /** An empty or lower-case remainder, and names without an accessor prefix, give null. */
  lemma FieldNameRejects()
    ensures FieldNameByMethodName("get") == None
    ensures FieldNameByMethodName("gets") == None
    ensures FieldNameByMethodName("is") == None
    ensures FieldNameByMethodName("isolate") == None
    ensures FieldNameByMethodName("run") == None
  {
    assert "gets"[..3] == "get" && "gets"[3..] == "s";
    assert "isolate"[..2] == "is" && "isolate"[2..] == "olate";
    assert !StartsWith("isolate", "get") && !StartsWith("isolate", "set") by {
      assert "isolate"[..3][0] == 'i';
    }
    assert !StartsWith("is", "get") && !StartsWith("is", "set");
  }

  /** `getURL` keeps the rest of the name as it is: only the first letter is lowered. */
  lemma FieldNameLowersOnlyFirstLetter()
    ensures FieldNameByMethodName("getURL") == Some("uRL")
  {
    assert "getURL"[..3] == "get" && "getURL"[3..] == "URL";
    assert ToLowerAscii('U') == 'u';
    assert !IsLowerAscii('U');
    assert "URL"[1..] == "RL";
    assert ['u'] + "RL" == "uRL";
  }

  // ---------------------------------------------------------------- normalize

  /**
   * `normalize(type)`: the first and the last character are dropped (the `L` and `;` of a
   * descriptor) and every `/` becomes `.`. Shorter inputs make `substring` throw.
   */
  function Normalize(t: string): (r: string)
    requires |t| >= 2
    ensures |r| == |t| - 2
  {
    ReplaceChar(t[1..][..|t| - 2], '/', '.')
  }

  /** The textual replacement `normalize` calls gives the same string. */
  lemma NormalizeReplacesText(t: string)
    requires |t| >= 2
    ensures Normalize(t) == ReplaceAll(t[1..|t| - 1], "/", ".")
  {
    assert t[1..][..|t| - 2] == t[1..|t| - 1];
    ReplaceOneChar(t[1..|t| - 1], '/', '.');
  }

  /** Character by character, `normalize` is the descriptor's inside with `/` read as `.`. */
  lemma NormalizeChars(t: string)
    requires |t| >= 2
    ensures forall i | 0 <= i < |t| - 2 :: Normalize(t)[i] == if t[i + 1] == '/' then '.' else t[i + 1]
  {
    ReplaceCharAt(t[1..][..|t| - 2], '/', '.');
  }

  /** The internal descriptor of a dotted class name, as in `Ljava/lang/Deprecated;`. */
  function Descriptor(name: string): (r: string)
    ensures |r| == |name| + 2 && r[0] == 'L' && r[|r| - 1] == ';'
    ensures forall i | 0 <= i < |name| :: r[i + 1] == if name[i] == '.' then '/' else name[i]
  {
    ReplaceCharAt(name, '.', '/');
    "L" + ReplaceChar(name, '.', '/') + ";"
  }

  /** `normalize` undoes `Descriptor` for names without `/`. */
  lemma NormalizeDescriptor(name: string)
    requires '/' !in name
    ensures Normalize(Descriptor(name)) == name
  {
    NormalizeChars(Descriptor(name));
  }

  lemma NormalizeExample()
    ensures Normalize("Ljava/lang/Deprecated;") == "java.lang.Deprecated"
  {
    var r := Normalize("Ljava/lang/Deprecated;");
    NormalizeChars("Ljava/lang/Deprecated;");
    forall i | 0 <= i < |r| ensures r[i] == "java.lang.Deprecated"[i] {
    }
  }
}
