/** The patch model behind the review panel: files, hunks and lines as the
    page declares them, the `totalStats` fold, and the page's sample changeset
    together with the two hard-coded copies of its figures. */
module Patch {
  import opened Base
  import opened Text

  datatype FileStatus = Modified | Added | Deleted

  datatype LineType = Add | Remove | Context | Header

  /** One rendered line; line numbers are optional and, as everywhere on the
      page, non-negative integers. */
  datatype DiffLine = DiffLine(
    kind: LineType,
    content: string,
    oldLineNumber: Option<nat>,
    newLineNumber: Option<nat>)

  /** A hunk with its unified-diff header fields. Nothing ties the header
      counts to `lines`: the page neither checks nor derives them. */
  datatype DiffHunk = DiffHunk(
    oldStart: nat,
    oldLines: nat,
    newStart: nat,
    newLines: nat,
    lines: seq<DiffLine>)

  /** A changed file. `additions` and `deletions` are stored figures, not
      counts of the hunks' lines. */
  datatype FileDiff = FileDiff(
    path: string,
    status: FileStatus,
    additions: nat,
    deletions: nat,
    hunks: seq<DiffHunk>)

  datatype Stats = Stats(additions: nat, deletions: nat)

  /** The string value the page stores in `status`. */
  function StatusName(s: FileStatus): string {
    match s
    case Modified => "modified"
    case Added => "added"
    case Deleted => "deleted"
  }

  // ---------------------------------------------------------------------------
  // totalStats
  // ---------------------------------------------------------------------------

  /** Reference sums, independent of the fold's evaluation order. */
  function SumAdditions(files: seq<FileDiff>): nat {
    if |files| == 0 then 0 else files[0].additions + SumAdditions(files[1..])
  }

  function SumDeletions(files: seq<FileDiff>): nat {
    if |files| == 0 then 0 else files[0].deletions + SumDeletions(files[1..])
  }

  /** `files.reduce((acc, file) => ..., acc)`: a left fold adding each file's
      stored figures to the accumulator. */
  function StatsFold(acc: Stats, files: seq<FileDiff>): Stats
    decreases |files|
  {
    if |files| == 0 then acc
    else StatsFold(
      Stats(acc.additions + files[0].additions, acc.deletions + files[0].deletions),
      files[1..])
  }

  /** The left fold from any accumulator adds the reference sums to it. */
  lemma {:induction false} StatsFoldAddsSums(acc: Stats, files: seq<FileDiff>)
    ensures StatsFold(acc, files)
      == Stats(acc.additions + SumAdditions(files), acc.deletions + SumDeletions(files))
    decreases |files|
  {
    if |files| > 0 {
      StatsFoldAddsSums(
        Stats(acc.additions + files[0].additions, acc.deletions + files[0].deletions),
        files[1..]);
    }
  }

  /** `totalStats`: the sums of the files' stored `additions` and `deletions`. */
  function TotalStats(files: seq<FileDiff>): (r: Stats)
    ensures r.additions == SumAdditions(files)
    ensures r.deletions == SumDeletions(files)
  {
    StatsFoldAddsSums(Stats(0, 0), files);
    StatsFold(Stats(0, 0), files)
  }

  /** The totals of two concatenated changesets add up. */
  lemma {:induction false} TotalStatsConcat(a: seq<FileDiff>, b: seq<FileDiff>)
    ensures TotalStats(a + b)
      == Stats(TotalStats(a).additions + TotalStats(b).additions,
               TotalStats(a).deletions + TotalStats(b).deletions)
    decreases |a|
  {
    if |a| == 0 {
      assert a + b == b;
    } else {
      assert (a + b)[1..] == a[1..] + b;
      TotalStatsConcat(a[1..], b);
    }
  }

  // ---------------------------------------------------------------------------
  // Line counts the page does not use (the stored figures win)
  // ---------------------------------------------------------------------------

  /** All lines of a file's hunks, hunk after hunk. */
  function LinesOf(hunks: seq<DiffHunk>): seq<DiffLine>
  {
    if |hunks| == 0 then []
    else hunks[0].lines + LinesOf(hunks[1..])
  }

  function CountKind(lines: seq<DiffLine>, k: LineType): (n: nat)
    ensures n <= |lines|
  {
    if |lines| == 0 then 0
    else (if lines[0].kind == k then 1 else 0) + CountKind(lines[1..], k)
  }

  /** The agreement between stored figures and hunk contents that a careful
      producer would guarantee; the page neither checks nor relies on it. */
  predicate FiguresMatchLines(f: FileDiff) {
    f.additions == CountKind(LinesOf(f.hunks), Add)
    && f.deletions == CountKind(LinesOf(f.hunks), Remove)
  }

  // ---------------------------------------------------------------------------
  // The sample changeset and its hard-coded mirrors
  // ---------------------------------------------------------------------------

  function Ctx(content: string, oldNo: nat, newNo: nat): DiffLine {
    DiffLine(Context, content, Some(oldNo), Some(newNo))
  }

  function Plus(content: string, newNo: nat): DiffLine {
    DiffLine(Add, content, None, Some(newNo))
  }

  function Minus(content: string, oldNo: nat): DiffLine {
    DiffLine(Remove, content, Some(oldNo), None)
  }

  function LoginFormDiff(): FileDiff {
    FileDiff("src/components/auth/LoginForm.tsx", Modified, 45, 12, [
      DiffHunk(15, 8, 15, 12, [
        Ctx("export function LoginForm() {", 15, 15),
        Ctx("  const [email, setEmail] = useState('')", 16, 16),
        Minus("  const [password, setPassword] = useState('')", 17),
        Plus("  const [password, setPassword] = useState<string>('')", 17),
        Plus("  const [isLoading, setIsLoading] = useState(false)", 18),
        Ctx("", 18, 19),
        Minus("  const handleSubmit = (e: FormEvent) => {", 19),
        Plus("  const handleSubmit = async (e: FormEvent) => {", 20),
        Ctx("    e.preventDefault()", 20, 21),
        Plus("    setIsLoading(true)", 22),
        Plus("    try {", 23),
        Plus("      await login(email, password)", 24),
        Plus("    } catch (error) {", 25),
        Plus("      console.error(error)", 26),
        Plus("    } finally {", 27),
        Plus("      setIsLoading(false)", 28),
        Plus("    }", 29),
        Ctx("  }", 21, 30)
      ])
    ])
  }

  function AuthApiDiff(): FileDiff {
    FileDiff("src/lib/api/auth.ts", Modified, 23, 8, [
      DiffHunk(5, 6, 5, 10, [
        Ctx("import { api } from './client'", 5, 5),
        Plus("import { z } from 'zod'", 6),
        Ctx("", 6, 7),
        Plus("const loginSchema = z.object({", 8),
        Plus("  email: z.string().email(),", 9),
        Plus("  password: z.string().min(8),", 10),
        Plus("})", 11),
        Plus("", 12),
        Minus("export async function login(email: string, password: string) {", 7),
        Plus("export async function login(email: string, password: string): Promise<User> {", 13),
        Plus("  const validated = loginSchema.parse({ email, password })", 14),
        Ctx("  return api.post('/auth/login', { email, password })", 8, 15),
        Ctx("}", 9, 16)
      ])
    ])
  }

  function UserTypesDiff(): FileDiff {
    FileDiff("src/types/user.ts", Added, 15, 0, [
      DiffHunk(0, 0, 1, 15, [
        Plus("export interface User {", 1),
        Plus("  id: string", 2),
        Plus("  email: string", 3),
        Plus("  name: string", 4),
        Plus("  avatar?: string", 5),
        Plus("  createdAt: Date", 6),
        Plus("  updatedAt: Date", 7),
        Plus("}", 8),
        Plus("", 9),
        Plus("export interface AuthResponse {", 10),
        Plus("  user: User", 11),
        Plus("  token: string", 12),
        Plus("  expiresAt: Date", 13),
        Plus("}", 14)
      ])
    ])
  }

  function HeaderDiff(): FileDiff {
    FileDiff("src/components/layout/Header.tsx", Modified, 8, 3, [
      DiffHunk(12, 5, 12, 8, [
        Ctx("export function Header() {", 12, 12),
        Plus("  const { user } = useAuth()", 13),
        Ctx("  return (", 13, 14),
        Minus("    <header className=\"bg-white\">", 14),
        Plus("    <header className=\"bg-white shadow-sm\">", 15),
        Ctx("      <nav>", 15, 16),
        Plus("        {user && <UserMenu user={user} />}", 17),
        Ctx("      </nav>", 16, 18),
        Ctx("    </header>", 17, 19)
      ])
    ])
  }

  function AuthTestDiff(): FileDiff {
    FileDiff("tests/auth.test.ts", Added, 67, 0, [
      DiffHunk(0, 0, 1, 20, [
        Plus("import { describe, it, expect } from 'vitest'", 1),
        Plus("import { login } from '../src/lib/api/auth'", 2),
        Plus("", 3),
        Plus("describe('Authentication', () => {", 4),
        Plus("  it('should login with valid credentials', async () => {", 5),
        Plus("    const result = await login('test@example.com', 'password123')", 6),
        Plus("    expect(result).toBeDefined()", 7),
        Plus("    expect(result.user).toBeDefined()", 8),
        Plus("    expect(result.token).toBeDefined()", 9),
        Plus("  })", 10),
        Plus("", 11),
        Plus("  it('should throw error with invalid credentials', async () => {", 12),
        Plus("    await expect(", 13),
        Plus("      login('test@example.com', 'wrong')", 14),
        Plus("    ).rejects.toThrow()", 15),
        Plus("  })", 16),
        Plus("})", 17)
      ])
    ])
  }

  /** `mockDiffData`: the changeset the review panel shows. */
  function MockDiffData(): seq<FileDiff> {
    [LoginFormDiff(), AuthApiDiff(), UserTypesDiff(), HeaderDiff(), AuthTestDiff()]
  }

  /** A row of the `changedFiles` list in the side summary. */
  datatype ChangedFile = ChangedFile(path: string, additions: nat, deletions: nat, status: FileStatus)

  /** The side summary's hand-written copy of the sample changeset's figures. */
  function ChangedFiles(): seq<ChangedFile> {
    [ ChangedFile("src/components/auth/LoginForm.tsx", 45, 12, Modified),
      ChangedFile("src/lib/api/auth.ts", 23, 8, Modified),
      ChangedFile("src/types/user.ts", 15, 0, Added),
      ChangedFile("src/components/layout/Header.tsx", 8, 3, Modified),
      ChangedFile("tests/auth.test.ts", 67, 0, Added) ]
  }

  /** The side summary's badge texts, written as literals on the page. */
  const SummaryAdditionsBadge: string := "+158"
  const SummaryDeletionsBadge: string := "-23"

  /** The sample changeset totals (158, 23) over five files; the side summary's
      list mirrors it row for row and its literal badges print the same totals. */
  lemma MockTotals()
    ensures |MockDiffData()| == 5
    ensures TotalStats(MockDiffData()) == Stats(158, 23)
    ensures |ChangedFiles()| == |MockDiffData()|
    ensures forall i :: 0 <= i < |ChangedFiles()| ==>
      var c := ChangedFiles()[i];
      var f := MockDiffData()[i];
      c.path == f.path && c.additions == f.additions
      && c.deletions == f.deletions && c.status == f.status
    ensures SummaryAdditionsBadge == "+" + NatToString(TotalStats(MockDiffData()).additions)
    ensures SummaryDeletionsBadge == "-" + NatToString(TotalStats(MockDiffData()).deletions)
  {
    var d := MockDiffData();
    assert SumAdditions(d[4..]) == 67;
    assert SumAdditions(d[3..]) == 75;
    assert SumAdditions(d[2..]) == 90;
    assert SumAdditions(d[1..]) == 113;
    assert SumDeletions(d[4..]) == 0;
    assert SumDeletions(d[3..]) == 3;
    assert SumDeletions(d[2..]) == 3;
    assert SumDeletions(d[1..]) == 11;
    assert NatToString(158) == NatToString(15) + "8";
    assert NatToString(15) == NatToString(1) + "5";
    assert NatToString(23) == NatToString(2) + "3";
  }

  /** The sample's stored figures do not count its lines: the first file
      claims 45 additions while its single hunk holds only 18 lines in all. */
  lemma MockFiguresAreNotLineCounts()
    ensures !FiguresMatchLines(LoginFormDiff())
  {
    var hunks := LoginFormDiff().hunks;
    assert |hunks| == 1 && |hunks[0].lines| == 18;
    assert LinesOf(hunks) == hunks[0].lines + LinesOf(hunks[1..]);
    assert |LinesOf(hunks)| == 18;
  }
}
