/** The static configuration of the roster scan: the section labels tried for
    every course, the course catalog in scan order, the credit table, and the
    retry parameters of the fetcher (src/app/api/search/route.ts, lines 9-130).

    The catalog and the credit table are written as concatenations of blocks of
    twelve entries, in the source's order, so that the verifier reasons about
    short displays rather than one display of 96 elements. */
module Catalog {

  /** Section labels tried for every course, in order. */
  const ALLOWED_CLASSES: seq<string> :=
    ["A", "B", "C", "D", "E", "F", "G", "H", "I", "J", "K", "P", "T", "M00"]

  const COURSES_0: seq<string> := [
    "EF4103", "EF4101", "SM4101", "EF4104", "EF4102", "SM4201",
    "EF4204", "EF4203", "EE4101", "EF4202", "EF4201", "EF4801"]
  const COURSES_1: seq<string> := [
    "EF4303", "EK4201", "EF4307", "EF4305", "EF4302", "EF4301",
    "EF4304", "EF4404", "EF4403", "EF4406", "EF4401", "EF4405"]
  const COURSES_2: seq<string> := [
    "ER4301", "EF4402", "EF4518", "EF4504", "EF4507", "EF4502",
    "EF4512", "EF4503", "EF4501", "EF4509", "EF4520", "EF4519"]
  const COURSES_3: seq<string> := [
    "EF4521", "EF4517", "EF4515", "EF4505", "EF4510", "EF4513",
    "EF4508", "EF4514", "EF4511", "EF4506", "EF4612", "EF4615"]
  const COURSES_4: seq<string> := [
    "EF4616", "EF4605", "EF4619", "EF4614", "EF4613", "EF4618",
    "EF4602", "EF4607", "EF4606", "EF4603", "EF4604", "EF4625"]
  const COURSES_5: seq<string> := [
    "ER4402", "ER4503", "EF4608", "EF4601", "EF4621", "EF4620",
    "EF4610", "EF4609", "EF4617", "EF4611", "EK4501", "EF4708"]
  const COURSES_6: seq<string> := [
    "ER4403", "EF4712", "EF4701", "ER4505", "EF4705", "EF4710",
    "EF4704", "EF4713", "EF4722", "EF4707", "EF4706", "EF4702"]
  const COURSES_7: seq<string> := [
    "EF4711", "EF4726", "EF4709", "EF4703", "EF4714", "EF4715",
    "EF4716", "EF4717", "EF4718", "EF4719", "EF4720", "EF4721"]

  /** Course codes of the catalog, in scan order. */
  const MK_ID_LIST: seq<string> :=
    COURSES_0 + COURSES_1 + COURSES_2 + COURSES_3 + COURSES_4 + COURSES_5 + COURSES_6 + COURSES_7

  const CREDITS_0: map<string, nat> := map[
    "EF4103" := 3, "EF4101" := 4, "SM4101" := 3, "EF4104" := 4, "EF4102" := 3, "SM4201" := 3,
    "EF4204" := 3, "EF4203" := 3, "EE4101" := 2, "EF4202" := 4, "EF4201" := 4, "EF4801" := 5]
  const CREDITS_1: map<string, nat> := map[
    "EF4303" := 4, "EK4201" := 3, "EF4307" := 2, "EF4305" := 3, "EF4302" := 3, "EF4301" := 3,
    "EF4304" := 3, "EF4404" := 3, "EF4403" := 2, "EF4406" := 3, "EF4401" := 3, "EF4405" := 3]
  const CREDITS_2: map<string, nat> := map[
    "ER4301" := 3, "EF4402" := 3, "EF4518" := 3, "EF4504" := 3, "EF4507" := 3, "EF4502" := 3,
    "EF4512" := 3, "EF4503" := 3, "EF4501" := 3, "EF4509" := 3, "EF4520" := 3, "EF4519" := 3]
  const CREDITS_3: map<string, nat> := map[
    "EF4521" := 3, "EF4517" := 3, "EF4515" := 3, "EF4505" := 3, "EF4510" := 3, "EF4513" := 3,
    "EF4508" := 3, "EF4514" := 3, "EF4511" := 3, "EF4506" := 3, "EF4612" := 3, "EF4615" := 3]
  const CREDITS_4: map<string, nat> := map[
    "EF4616" := 3, "EF4605" := 3, "EF4619" := 3, "EF4614" := 3, "EF4613" := 3, "EF4618" := 3,
    "EF4602" := 3, "EF4607" := 3, "EF4606" := 3, "EF4603" := 4, "EF4604" := 3, "EF4625" := 3]
  const CREDITS_5: map<string, nat> := map[
    "ER4402" := 3, "ER4503" := 3, "EF4608" := 3, "EF4601" := 3, "EF4621" := 3, "EF4620" := 3,
    "EF4610" := 3, "EF4609" := 3, "EF4617" := 3, "EF4611" := 3, "EK4501" := 3, "EF4708" := 3]
  const CREDITS_6: map<string, nat> := map[
    "ER4403" := 3, "EF4712" := 3, "EF4701" := 2, "ER4505" := 3, "EF4705" := 3, "EF4710" := 3,
    "EF4704" := 3, "EF4713" := 3, "EF4722" := 6, "EF4707" := 3, "EF4706" := 3, "EF4702" := 2]
  const CREDITS_7: map<string, nat> := map[
    "EF4711" := 3, "EF4726" := 3, "EF4709" := 3, "EF4703" := 3, "EF4714" := 3, "EF4715" := 3,
    "EF4716" := 3, "EF4717" := 3, "EF4718" := 3, "EF4719" := 3, "EF4720" := 3, "EF4721" := 3]

  /** Credit hours per course code. */
  const COURSE_CREDITS: map<string, nat> :=
    CREDITS_0 + CREDITS_1 + CREDITS_2 + CREDITS_3 + CREDITS_4 + CREDITS_5 + CREDITS_6 + CREDITS_7

  /** Number of retries after the first attempt. */
  const MAX_RETRIES: nat := 3
  /** Base backoff delay in milliseconds. */
  const RETRY_DELAY: nat := 2000
  /** Number of course codes scanned per batch. */
  const CHUNK_SIZE: nat := 3
  /** Semester reported in every result. */
  const SEMESTER: nat := 2

  /** No element occurs twice. */
  predicate Distinct<T(==)>(s: seq<T>) {
    forall i, j :: 0 <= i < j < |s| ==> s[i] != s[j]
  }

  lemma DistinctConcat<T>(a: seq<T>, b: seq<T>)
    requires Distinct(a) && Distinct(b)
    requires forall x, y :: x in a && y in b ==> x != y
    ensures Distinct(a + b)
  {
    forall i, j | 0 <= i < j < |a + b| ensures (a + b)[i] != (a + b)[j] {
      if j < |a| {
      } else if i >= |a| {
        assert (a + b)[i] == b[i - |a|] && (a + b)[j] == b[j - |a|];
      } else {
        assert (a + b)[i] in a && (a + b)[j] in b;
      }
    }
  }

  lemma DisjointAppend<T>(a: seq<T>, b: seq<T>, c: seq<T>)
    requires forall x, y :: x in a && y in c ==> x != y
    requires forall x, y :: x in b && y in c ==> x != y
    ensures forall x, y :: x in a + b && y in c ==> x != y
  {
  }

  lemma CatalogSizes()
    ensures |MK_ID_LIST| == 96 && |ALLOWED_CLASSES| == 14
  {
  }

  lemma ClassesDistinct()
    ensures Distinct(ALLOWED_CLASSES)
  {
  }

  lemma BlockDistinct0()
    ensures Distinct(COURSES_0)
  {
  }

  lemma BlockDistinct1()
    ensures Distinct(COURSES_1)
  {
  }

  lemma BlockDistinct2()
    ensures Distinct(COURSES_2)
  {
  }

  lemma BlockDistinct3()
    ensures Distinct(COURSES_3)
  {
  }

  lemma BlockDistinct4()
    ensures Distinct(COURSES_4)
  {
  }

  lemma BlockDistinct5()
    ensures Distinct(COURSES_5)
  {
  }

  lemma BlockDistinct6()
    ensures Distinct(COURSES_6)
  {
  }

  lemma BlockDistinct7()
    ensures Distinct(COURSES_7)
  {
  }

  lemma BlocksDisjoint01()
    ensures forall x, y :: x in COURSES_0 && y in COURSES_1 ==> x != y
  {
  }

  lemma BlocksDisjoint02()
    ensures forall x, y :: x in COURSES_0 && y in COURSES_2 ==> x != y
  {
  }

  lemma BlocksDisjoint03()
    ensures forall x, y :: x in COURSES_0 && y in COURSES_3 ==> x != y
  {
  }

  lemma BlocksDisjoint04()
    ensures forall x, y :: x in COURSES_0 && y in COURSES_4 ==> x != y
  {
  }

  lemma BlocksDisjoint05()
    ensures forall x, y :: x in COURSES_0 && y in COURSES_5 ==> x != y
  {
  }

  lemma BlocksDisjoint06()
    ensures forall x, y :: x in COURSES_0 && y in COURSES_6 ==> x != y
  {
  }

  lemma BlocksDisjoint07()
    ensures forall x, y :: x in COURSES_0 && y in COURSES_7 ==> x != y
  {
  }

  lemma BlocksDisjoint12()
    ensures forall x, y :: x in COURSES_1 && y in COURSES_2 ==> x != y
  {
  }

  lemma BlocksDisjoint13()
    ensures forall x, y :: x in COURSES_1 && y in COURSES_3 ==> x != y
  {
  }

  lemma BlocksDisjoint14()
    ensures forall x, y :: x in COURSES_1 && y in COURSES_4 ==> x != y
  {
  }

  lemma BlocksDisjoint15()
    ensures forall x, y :: x in COURSES_1 && y in COURSES_5 ==> x != y
  {
  }

  lemma BlocksDisjoint16()
    ensures forall x, y :: x in COURSES_1 && y in COURSES_6 ==> x != y
  {
  }

  lemma BlocksDisjoint17()
    ensures forall x, y :: x in COURSES_1 && y in COURSES_7 ==> x != y
  {
  }

  lemma BlocksDisjoint23()
    ensures forall x, y :: x in COURSES_2 && y in COURSES_3 ==> x != y
  {
  }

  lemma BlocksDisjoint24()
    ensures forall x, y :: x in COURSES_2 && y in COURSES_4 ==> x != y
  {
  }

  lemma BlocksDisjoint25()
    ensures forall x, y :: x in COURSES_2 && y in COURSES_5 ==> x != y
  {
  }

  lemma BlocksDisjoint26()
    ensures forall x, y :: x in COURSES_2 && y in COURSES_6 ==> x != y
  {
  }

  lemma BlocksDisjoint27()
    ensures forall x, y :: x in COURSES_2 && y in COURSES_7 ==> x != y
  {
  }

  lemma BlocksDisjoint34()
    ensures forall x, y :: x in COURSES_3 && y in COURSES_4 ==> x != y
  {
  }

  lemma BlocksDisjoint35()
    ensures forall x, y :: x in COURSES_3 && y in COURSES_5 ==> x != y
  {
  }

  lemma BlocksDisjoint36()
    ensures forall x, y :: x in COURSES_3 && y in COURSES_6 ==> x != y
  {
  }

  lemma BlocksDisjoint37()
    ensures forall x, y :: x in COURSES_3 && y in COURSES_7 ==> x != y
  {
  }

  lemma BlocksDisjoint45()
    ensures forall x, y :: x in COURSES_4 && y in COURSES_5 ==> x != y
  {
  }

  lemma BlocksDisjoint46()
    ensures forall x, y :: x in COURSES_4 && y in COURSES_6 ==> x != y
  {
  }

  lemma BlocksDisjoint47()
    ensures forall x, y :: x in COURSES_4 && y in COURSES_7 ==> x != y
  {
  }

  lemma BlocksDisjoint56()
    ensures forall x, y :: x in COURSES_5 && y in COURSES_6 ==> x != y
  {
  }

  lemma BlocksDisjoint57()
    ensures forall x, y :: x in COURSES_5 && y in COURSES_7 ==> x != y
  {
  }

  lemma BlocksDisjoint67()
    ensures forall x, y :: x in COURSES_6 && y in COURSES_7 ==> x != y
  {
  }

  lemma PrefixDistinct1()
    ensures Distinct(COURSES_0 + COURSES_1)
  {
    BlockDistinct0();
    BlockDistinct1();
    BlocksDisjoint01();
    DistinctConcat(COURSES_0, COURSES_1);
  }

  lemma PrefixDistinct2()
    ensures Distinct(COURSES_0 + COURSES_1 + COURSES_2)
  {
    PrefixDistinct1();
    BlockDistinct2();
    BlocksDisjoint02(); BlocksDisjoint12();
    DisjointAppend(COURSES_0, COURSES_1, COURSES_2);
    DistinctConcat(COURSES_0 + COURSES_1, COURSES_2);
  }

  lemma PrefixDistinct3()
    ensures Distinct(COURSES_0 + COURSES_1 + COURSES_2 + COURSES_3)
  {
    PrefixDistinct2();
    BlockDistinct3();
    BlocksDisjoint03(); BlocksDisjoint13(); BlocksDisjoint23();
    DisjointAppend(COURSES_0, COURSES_1, COURSES_3);
    DisjointAppend(COURSES_0 + COURSES_1, COURSES_2, COURSES_3);
    DistinctConcat(COURSES_0 + COURSES_1 + COURSES_2, COURSES_3);
  }

  lemma PrefixDistinct4()
    ensures Distinct(COURSES_0 + COURSES_1 + COURSES_2 + COURSES_3 + COURSES_4)
  {
    PrefixDistinct3();
    BlockDistinct4();
    BlocksDisjoint04(); BlocksDisjoint14(); BlocksDisjoint24(); BlocksDisjoint34();
    DisjointAppend(COURSES_0, COURSES_1, COURSES_4);
    DisjointAppend(COURSES_0 + COURSES_1, COURSES_2, COURSES_4);
    DisjointAppend(COURSES_0 + COURSES_1 + COURSES_2, COURSES_3, COURSES_4);
    DistinctConcat(COURSES_0 + COURSES_1 + COURSES_2 + COURSES_3, COURSES_4);
  }

  lemma PrefixDistinct5()
    ensures Distinct(COURSES_0 + COURSES_1 + COURSES_2 + COURSES_3 + COURSES_4 + COURSES_5)
  {
    PrefixDistinct4();
    BlockDistinct5();
    BlocksDisjoint05(); BlocksDisjoint15(); BlocksDisjoint25(); BlocksDisjoint35(); BlocksDisjoint45();
    DisjointAppend(COURSES_0, COURSES_1, COURSES_5);
    DisjointAppend(COURSES_0 + COURSES_1, COURSES_2, COURSES_5);
    DisjointAppend(COURSES_0 + COURSES_1 + COURSES_2, COURSES_3, COURSES_5);
    DisjointAppend(COURSES_0 + COURSES_1 + COURSES_2 + COURSES_3, COURSES_4, COURSES_5);
    DistinctConcat(COURSES_0 + COURSES_1 + COURSES_2 + COURSES_3 + COURSES_4, COURSES_5);
  }

  lemma PrefixDistinct6()
    ensures Distinct(COURSES_0 + COURSES_1 + COURSES_2 + COURSES_3 + COURSES_4 + COURSES_5 + COURSES_6)
  {
    PrefixDistinct5();
    BlockDistinct6();
    BlocksDisjoint06(); BlocksDisjoint16(); BlocksDisjoint26(); BlocksDisjoint36(); BlocksDisjoint46(); BlocksDisjoint56();
    DisjointAppend(COURSES_0, COURSES_1, COURSES_6);
    DisjointAppend(COURSES_0 + COURSES_1, COURSES_2, COURSES_6);
    DisjointAppend(COURSES_0 + COURSES_1 + COURSES_2, COURSES_3, COURSES_6);
    DisjointAppend(COURSES_0 + COURSES_1 + COURSES_2 + COURSES_3, COURSES_4, COURSES_6);
    DisjointAppend(COURSES_0 + COURSES_1 + COURSES_2 + COURSES_3 + COURSES_4, COURSES_5, COURSES_6);
    DistinctConcat(COURSES_0 + COURSES_1 + COURSES_2 + COURSES_3 + COURSES_4 + COURSES_5, COURSES_6);
  }

  lemma PrefixDistinct7()
    ensures Distinct(COURSES_0 + COURSES_1 + COURSES_2 + COURSES_3 + COURSES_4 + COURSES_5 + COURSES_6 + COURSES_7)
  {
    PrefixDistinct6();
    BlockDistinct7();
    BlocksDisjoint07(); BlocksDisjoint17(); BlocksDisjoint27(); BlocksDisjoint37(); BlocksDisjoint47(); BlocksDisjoint57(); BlocksDisjoint67();
    DisjointAppend(COURSES_0, COURSES_1, COURSES_7);
    DisjointAppend(COURSES_0 + COURSES_1, COURSES_2, COURSES_7);
    DisjointAppend(COURSES_0 + COURSES_1 + COURSES_2, COURSES_3, COURSES_7);
    DisjointAppend(COURSES_0 + COURSES_1 + COURSES_2 + COURSES_3, COURSES_4, COURSES_7);
    DisjointAppend(COURSES_0 + COURSES_1 + COURSES_2 + COURSES_3 + COURSES_4, COURSES_5, COURSES_7);
    DisjointAppend(COURSES_0 + COURSES_1 + COURSES_2 + COURSES_3 + COURSES_4 + COURSES_5, COURSES_6, COURSES_7);
    DistinctConcat(COURSES_0 + COURSES_1 + COURSES_2 + COURSES_3 + COURSES_4 + COURSES_5 + COURSES_6, COURSES_7);
  }

  /** Every course code of the catalog occurs exactly once. */
  lemma CatalogDistinct()
    ensures Distinct(MK_ID_LIST)
  {
    PrefixDistinct7();
  }

  // The credit of EF4101, the course of the worked example, read off the
  // blocks: it is listed in the first block and in none of the later ones,
  // so the merged table keeps it.
  lemma EF4101InBlock0() ensures "EF4101" in CREDITS_0 && CREDITS_0["EF4101"] == 4 {}
  lemma EF4101NotInBlock1() ensures "EF4101" !in CREDITS_1 {}
  lemma EF4101NotInBlock2() ensures "EF4101" !in CREDITS_2 {}
  lemma EF4101NotInBlock3() ensures "EF4101" !in CREDITS_3 {}
  lemma EF4101NotInBlock4() ensures "EF4101" !in CREDITS_4 {}
  lemma EF4101NotInBlock5() ensures "EF4101" !in CREDITS_5 {}
  lemma EF4101NotInBlock6() ensures "EF4101" !in CREDITS_6 {}
  lemma EF4101NotInBlock7() ensures "EF4101" !in CREDITS_7 {}

  /** EF4101 carries four credit hours. */
  lemma CreditsOfEF4101()
    ensures "EF4101" in COURSE_CREDITS && COURSE_CREDITS["EF4101"] == 4
  {
    EF4101InBlock0(); EF4101NotInBlock1(); EF4101NotInBlock2(); EF4101NotInBlock3();
    EF4101NotInBlock4(); EF4101NotInBlock5(); EF4101NotInBlock6(); EF4101NotInBlock7();
  }
}
