/** The employee CSV upload of the admin site (`csv_upload_view`): which rows
    become employees, which are reported, and which are skipped. The rows
    arrive already split into fields. */
module EmployeeCsv {
  import opened Strings
  import opened Staff

  // ---------------------------------------------------------------------------
  // Python's `str.strip()` and `str.split(' ', 1)`

  /** The characters `str.isspace()` accepts, which `strip()` removes. */
  predicate IsSpace(c: char)
  {
    var n := c as int;
    (0x09 <= n <= 0x0D) || (0x1C <= n <= 0x20) || n == 0x85 || n == 0xA0 || n == 0x1680
    || (0x2000 <= n <= 0x200A) || n == 0x2028 || n == 0x2029 || n == 0x202F || n == 0x205F
    || n == 0x3000
  }

  predicate AllSpace(s: string)
  {
    forall k :: 0 <= k < |s| ==> IsSpace(s[k])
  }

  /** Text with no whitespace at either end. */
  predicate Trimmed(s: string)
  {
    |s| == 0 || (!IsSpace(s[0]) && !IsSpace(s[|s| - 1]))
  }

  /** The number of whitespace characters `s.lstrip()` removes. */
  function LeadingSpace(s: string): (n: nat)
    ensures n <= |s| && AllSpace(s[..n])
    ensures n == |s| || !IsSpace(s[n])
  {
    if |s| > 0 && IsSpace(s[0]) then
      var k := LeadingSpace(s[1..]);
      assert s[..k + 1] == [s[0]] + s[1..][..k];
      k + 1
    else 0
  }

  /** The length `s.rstrip()` keeps. */
  function TextEnd(s: string): (n: nat)
    ensures n <= |s| && AllSpace(s[n..])
    ensures n == 0 || !IsSpace(s[n - 1])
  {
    if |s| > 0 && IsSpace(s[|s| - 1]) then
      var k := TextEnd(s[..|s| - 1]);
      assert s[k..] == s[..|s| - 1][k..] + [s[|s| - 1]];
      k
    else |s|
  }

  /** `s.strip()`. */
  function Strip(s: string): (r: string)
    ensures Trimmed(r)
    ensures |r| <= |s|
  {
    var t := s[LeadingSpace(s)..];
    var r := t[..TextEnd(t)];
    assert |r| == 0 || !IsSpace(r[0]) by {
      if |r| > 0 {
        assert r[0] == t[0];
      }
    }
    r
  }

  /** Stripping text padded with whitespace on both sides gives back the text,
      so a field's value is what lies between its surrounding blanks. */
  lemma StripPadded(a: string, s: string, b: string)
    requires AllSpace(a) && AllSpace(b) && Trimmed(s)
    ensures Strip(a + s + b) == s
  {
    var x := a + s + b;
    if |s| == 0 {
      assert AllSpace(x) by {
        forall k | 0 <= k < |x| ensures IsSpace(x[k]) {
          if k >= |a| {
            assert x[k] == b[k - |a|];
          }
        }
      }
      LeadingAllSpace(x);
    } else {
      LeadingBeforeText(a, s + b);
      assert x == a + (s + b);
      var t := x[|a|..];
      assert t == s + b;
      EndBeforeSpace(s, b);
    }
  }

  lemma {:induction false} LeadingAllSpace(s: string)
    requires AllSpace(s)
    ensures LeadingSpace(s) == |s|
  {
    if |s| > 0 {
      assert AllSpace(s[1..]) by {
        forall k | 0 <= k < |s[1..]| ensures IsSpace(s[1..][k]) {
          assert s[1..][k] == s[k + 1];
        }
      }
      LeadingAllSpace(s[1..]);
    }
  }

  lemma {:induction false} LeadingBeforeText(a: string, t: string)
    requires AllSpace(a) && |t| > 0 && !IsSpace(t[0])
    ensures LeadingSpace(a + t) == |a|
    decreases |a|
  {
    if |a| > 0 {
      assert (a + t)[1..] == a[1..] + t;
      assert AllSpace(a[1..]) by {
        forall k | 0 <= k < |a[1..]| ensures IsSpace(a[1..][k]) {
          assert a[1..][k] == a[k + 1];
        }
      }
      LeadingBeforeText(a[1..], t);
    } else {
      assert a + t == t;
    }
  }

  lemma {:induction false} EndBeforeSpace(s: string, b: string)
    requires AllSpace(b) && |s| > 0 && !IsSpace(s[|s| - 1])
    ensures TextEnd(s + b) == |s|
    decreases |b|
  {
    if |b| > 0 {
      assert (s + b)[..|s + b| - 1] == s + b[..|b| - 1];
      var c := b[..|b| - 1];
      assert AllSpace(c) by {
        forall k | 0 <= k < |c| ensures IsSpace(c[k]) {
          assert c[k] == b[k];
        }
      }
      EndBeforeSpace(s, b[..|b| - 1]);
    } else {
      assert s + b == s;
    }
  }

  /** `strip()` is idempotent. */
  lemma StripIdempotent(s: string)
    ensures Strip(Strip(s)) == Strip(s)
  {
    StripPadded([], Strip(s), []);
    assert [] + Strip(s) + [] == Strip(s);
  }

  /** The index of the first space, if any. */
  function FirstSpace(s: string): (r: int)
    ensures -1 <= r < |s|
    ensures r == -1 <==> ' ' !in s
    ensures r >= 0 ==> s[r] == ' ' && ' ' !in s[..r]
  {
    if |s| == 0 then -1
    else if s[0] == ' ' then 0
    else
      var k := FirstSpace(s[1..]);
      if k == -1 then -1 else k + 1
  }

  /** The name column split into (last name, first name): at the first space
      when there is one, otherwise the whole name is the last name. */
  function SplitName(name: string): (r: (string, string))
    ensures ' ' !in r.0
    ensures ' ' in name ==> r.0 + " " + r.1 == name
    ensures ' ' !in name ==> r == (name, "")
  {
    var k := FirstSpace(name);
    if k == -1 then (name, "")
    else
      assert name == name[..k] + " " + name[k + 1..];
      (name[..k], name[k + 1..])
  }

  /** A name written as last name, space, first name splits back into the
      two parts, even when the first name itself holds spaces. */
  lemma SplitJoinedName(last: string, first: string)
    requires ' ' !in last
    ensures SplitName(last + " " + first) == (last, first)
  {
    var r := SplitName(last + " " + first);
    SplitAtSeparator(r.0, r.1, last, first, ' ');
  }

  // ---------------------------------------------------------------------------
  // The upload loop

  /** What an upload has done so far: the employees created, the report lines
      (the page calls them all duplicates) and the rows skipped silently. */
  datatype Upload = Upload(created: seq<Employee>, reported: seq<string>, skipped: nat)

  /** The employee numbers an upload has created. */
  function CreatedNumbers(u: Upload): (r: set<string>)
    ensures forall e :: e in u.created ==> e.employeeNo in r
  {
    set e | e in u.created :: e.employeeNo
  }

  /** The account a valid row creates: active, not a superuser, no groups. */
  function NewEmployee(no: string, name: string, place: string, email: string): (e: Employee)
    ensures e.employeeNo == no && e.placeWork == place && e.email == email
    ensures e.lastName + (if ' ' in name then " " + e.firstName else "") == name
    ensures e.isActive && !e.isSuperuser && e.groups == {}
  {
    var parts := SplitName(name);
    Employee(no, parts.0, parts.1, place, email, true, false, {})
  }

  /** The number a row proposes: the stripped first field of a row with at
      least four fields, when it is six characters long. */
  function Proposes(row: seq<string>): (r: set<string>)
    ensures |r| <= 1
    ensures forall no :: no in r ==> |no| == 6
  {
    if |row| >= 4 && |Strip(row[0])| == 6 then {Strip(row[0])} else {}
  }

  /** One row of the loop. `existing` holds the numbers stored before the
      upload; numbers created earlier in the same file count as existing. */
  function Step(existing: set<string>, u: Upload, row: seq<string>): (r: Upload)
    ensures |r.created| + |r.reported| + r.skipped == |u.created| + |u.reported| + u.skipped + 1
    ensures |row| < 4 ==> r == u.(skipped := u.skipped + 1)
    ensures |u.created| <= |r.created| <= |u.created| + 1 && r.created[..|u.created|] == u.created
    ensures |r.created| == |u.created| + 1 <==>
              Proposes(row) != {} && Strip(row[0]) !in existing && Strip(row[0]) !in CreatedNumbers(u)
    ensures |r.created| == |u.created| + 1 ==> r.created[|u.created|].employeeNo == Strip(row[0])
  {
    if |row| < 4 then u.(skipped := u.skipped + 1)
    else
      var no := Strip(row[0]);
      var name := Strip(row[1]);
      var place := Strip(row[2]);
      var email := Strip(row[3]);
      if |no| != 6 then u.(reported := u.reported + [no + " (社員番号が6文字ではありません)"])
      else
        var parts := SplitName(name);
        if no in existing || no in CreatedNumbers(u) then
          u.(reported := u.reported + [no + " " + parts.0 + " " + parts.1])
        else u.(created := u.created + [NewEmployee(no, name, place, email)])
  }

  /** The whole loop over the rows of a file. */
  function Process(existing: set<string>, rows: seq<seq<string>>): (r: Upload)
    ensures |r.created| + |r.reported| + r.skipped == |rows|
  {
    if |rows| == 0 then Upload([], [], 0)
    else Step(existing, Process(existing, rows[..|rows| - 1]), rows[|rows| - 1])
  }

  /** Every number the rows of a file propose, whether or not it is new. */
  function Proposed(rows: seq<seq<string>>): (r: set<string>)
    ensures forall no :: no in r ==> |no| == 6
  {
    if |rows| == 0 then {} else Proposed(rows[..|rows| - 1]) + Proposes(rows[|rows| - 1])
  }

  /** Adding one more employee adds exactly its number. */
  lemma CreatedNumbersAppend(u0: Upload, u: Upload)
    requires |u.created| == |u0.created| + 1 && u.created[..|u0.created|] == u0.created
    ensures CreatedNumbers(u) == CreatedNumbers(u0) + {u.created[|u0.created|].employeeNo}
  {
    assert u.created == u0.created + [u.created[|u0.created|]];
  }

  /** No employee number occurs twice. */
  predicate DistinctNumbers(es: seq<Employee>)
  {
    forall i, j :: 0 <= i < j < |es| ==> es[i].employeeNo != es[j].employeeNo
  }

  /** Every number is six characters long and not among `existing`. */
  predicate FreshNumbers(es: seq<Employee>, existing: set<string>)
  {
    forall i :: 0 <= i < |es| ==> |es[i].employeeNo| == 6 && es[i].employeeNo !in existing
  }

  lemma AppendKeepsDistinct(es: seq<Employee>, e: Employee, existing: set<string>)
    requires DistinctNumbers(es) && FreshNumbers(es, existing)
    requires |e.employeeNo| == 6 && e.employeeNo !in existing
    requires forall i :: 0 <= i < |es| ==> es[i].employeeNo != e.employeeNo
    ensures DistinctNumbers(es + [e]) && FreshNumbers(es + [e], existing)
  {
    var xs := es + [e];
    forall i, j | 0 <= i < j < |xs|
      ensures xs[i].employeeNo != xs[j].employeeNo
    {
      if j < |es| {
        assert xs[i] == es[i] && xs[j] == es[j];
      }
    }
  }

  /** Every created employee has a fresh six-character number, and no number
      is created twice. */
  lemma {:induction false} UploadCreatesFresh(existing: set<string>, rows: seq<seq<string>>)
    ensures DistinctNumbers(Process(existing, rows).created)
    ensures FreshNumbers(Process(existing, rows).created, existing)
  {
    if |rows| > 0 {
      var init := rows[..|rows| - 1];
      UploadCreatesFresh(existing, init);
      StepKeepsFresh(existing, Process(existing, init), rows[|rows| - 1]);
    }
  }

  /** One row keeps the created numbers fresh and distinct. */
  lemma StepKeepsFresh(existing: set<string>, u0: Upload, row: seq<string>)
    requires DistinctNumbers(u0.created) && FreshNumbers(u0.created, existing)
    ensures DistinctNumbers(Step(existing, u0, row).created)
    ensures FreshNumbers(Step(existing, u0, row).created, existing)
  {
    var u := Step(existing, u0, row);
    if |u.created| == |u0.created| {
      assert u.created == u0.created;
    } else {
      var e := u.created[|u0.created|];
      assert u.created == u0.created + [e];
      assert |row| >= 4 && |Strip(row[0])| == 6;
      assert forall i :: 0 <= i < |u0.created| ==> u0.created[i].employeeNo in CreatedNumbers(u0);
      AppendKeepsDistinct(u0.created, e, existing);
    }
  }

  /** After the upload every number some well-formed row proposed is known,
      and no other number was added: nothing valid is lost, nothing invalid
      gets in. */
  lemma {:induction false} UploadCreatesProposed(existing: set<string>, rows: seq<seq<string>>)
    ensures existing + CreatedNumbers(Process(existing, rows)) == existing + Proposed(rows)
  {
    if |rows| > 0 {
      var init := rows[..|rows| - 1];
      UploadCreatesProposed(existing, init);
      var u0 := Process(existing, init);
      var u := Process(existing, rows);
      if |u.created| == |u0.created| {
        assert u.created == u0.created;
      } else {
        CreatedNumbersAppend(u0, u);
      }
    }
  }

  /** The message the page shows: the count of created employees, and the
      report lines when there are any, which make it a warning. */
  datatype Level = Success | Warning

  function JoinLines(lines: seq<string>): string
  {
    if |lines| == 0 then "" else if |lines| == 1 then lines[0] else lines[0] + "\n" + JoinLines(lines[1..])
  }

  function UploadMessage(u: Upload): (r: (Level, string))
    ensures r.0 == Warning <==> |u.reported| > 0
    ensures var head := NatToString(|u.created|) + "名の従業員を追加しました。";
            |head| <= |r.1| && r.1[..|head|] == head
  {
    var head := NatToString(|u.created|) + "名の従業員を追加しました。";
    if |u.reported| == 0 then (Success, head)
    else (Warning, head + "\n以下の社員番号は既に存在するため追加されませんでした:\n" + JoinLines(u.reported))
  }
}
