/** The administration page of pages/AdminPage.tsx: a login form that the
    relay answers, both catalogs, a browsable list with a detail toggle, and
    deletion of the entry under the cursor. */
module AdminPage {
  import opened Base
  import opened Values
  import opened Relay

  /** Both catalogs, the browsed list and the list the viewers show, the
      viewers' index (as received), the browsed index, the detail toggle,
      the login flag, the form and the error line. */
  datatype State = State(tuke: seq<Entry>, user: seq<Entry>, localList: seq<Entry>, currentList: seq<Entry>,
                         currentIndex: Value, localIndex: int, isChooseModel: bool,
                         loggedIn: bool, username: string, password: string, error: string)

  const Initial: State := State([], [], [], [], Num(0.0), 0, false, false, "", "", "")

  /** The page shows the login form until the relay accepts a login. */
  datatype Screen = LoginForm(error: string) | Catalog(list: seq<Entry>)

  function Render(s: State): (sc: Screen)
    ensures sc.LoginForm? <==> !s.loggedIn
    ensures sc.Catalog? ==> sc.list == s.localList
  {
    if s.loggedIn then Catalog(s.localList) else LoginForm(s.error)
  }

  datatype Input =
    | Mount
    | LoginSuccess
    | LoginFailed(message: string)
    | TypeUsername(username: string)
    | TypePassword(password: string)
    | PressLogin
    | UpdateIndex(index: Value)
    | FilesList(tukeModels: seq<Entry>, userModels: seq<Entry>)
    | ChangeModelList(folder: string)
    | ClickItem(item: int)
    | PressDelete

  /** `changeModelList`: "user" and "tuke" pick a catalog, any other name
      keeps the list; the detail view closes in every case. */
  function ChangeModelList(s: State, folder: string): (r: State)
    ensures !r.isChooseModel
    ensures folder == "user" ==> r.localList == s.user
    ensures folder == "tuke" ==> r.localList == s.tuke
    ensures folder != "user" && folder != "tuke" ==> r.localList == s.localList
    ensures r.(localList := s.localList, isChooseModel := s.isChooseModel) == s
  {
    var l := if folder == "user" then s.user else if folder == "tuke" then s.tuke else s.localList;
    s.(localList := l, isChooseModel := false)
  }

  /** A click on item `i`: it becomes the browsed item, and the detail view
      toggles only when it already was. */
  function ClickItem(s: State, i: int): (r: State)
    ensures r.localIndex == i
    ensures i == s.localIndex ==> r.isChooseModel == !s.isChooseModel
    ensures i != s.localIndex ==> r.isChooseModel == s.isChooseModel
    ensures r.(localIndex := s.localIndex, isChooseModel := s.isChooseModel) == s
  {
    s.(localIndex := i, isChooseModel := if i != s.localIndex then s.isChooseModel else !s.isChooseModel)
  }

  /** `handleDelete`: only when an entry exists at the browsed index. */
  function Delete(s: State): (out: seq<Emit>)
    ensures out != [] <==> 0 <= s.localIndex < |s.localList|
    ensures out != [] ==> out == [DeleteFile(s.localList[s.localIndex].id, s.localList[s.localIndex].folder)]
  {
    if 0 <= s.localIndex < |s.localList| then
      var f := s.localList[s.localIndex];
      [DeleteFile(f.id, f.folder)]
    else []
  }

  function Step(s: State, e: Input): (r: (State, seq<Emit>))
    ensures r.0.loggedIn == (s.loggedIn || e.LoginSuccess?)
    ensures e.Mount? ==> r == (s, [GetFiles])
    ensures e.LoginFailed? ==> r.0 == s.(error := e.message)
    ensures e.PressLogin? ==> r == (s, [AdminLogin(s.username, s.password)])
    ensures e.UpdateIndex? && !Truthy(e.index) ==> r.0 == s
    ensures e.UpdateIndex? && Truthy(e.index) ==> r.0 == s.(currentIndex := e.index)
    ensures e.FilesList? ==>
              r.0.tuke == e.tukeModels && r.0.user == e.userModels
              && r.0.localList == e.userModels && r.0.currentList == e.userModels
    ensures e.PressDelete? ==> r == (s, Delete(s))
    ensures !e.Mount? && !e.PressLogin? && !e.PressDelete? ==> r.1 == []
  {
    match e
    case Mount => (s, [GetFiles])
    case LoginSuccess => (s.(loggedIn := true), [])
    case LoginFailed(m) => (s.(error := m), [])
    case TypeUsername(u) => (s.(username := u), [])
    case TypePassword(p) => (s.(password := p), [])
    case PressLogin => (s, [AdminLogin(s.username, s.password)])
    case UpdateIndex(v) => (if Truthy(v) then s.(currentIndex := v) else s, [])
    case FilesList(tuke, user) =>
      (s.(tuke := tuke, user := user, localList := user, currentList := user), [])
    case ChangeModelList(folder) => (ChangeModelList(s, folder), [])
    case ClickItem(i) => (ClickItem(s, i), [])
    case PressDelete => (s, Delete(s))
  }

  function StateAfter(es: seq<Input>): State
  {
    if |es| == 0 then Initial else Step(StateAfter(es[..|es| - 1]), es[|es| - 1]).0
  }

  /** The catalog is shown exactly when a `login_success` has arrived; a
      failed login never logs in and no later event logs out. */
  lemma {:induction false} CatalogOnlyAfterLogin(es: seq<Input>)
    ensures Render(StateAfter(es)).Catalog? <==> LoginSuccess in es
  {
    if |es| > 0 {
      var init := es[..|es| - 1];
      CatalogOnlyAfterLogin(init);
      assert es == init + [es[|es| - 1]];
    }
  }

  /** Two clicks on the item already browsed leave the detail view as it
      was; two clicks on another item open or close it exactly once. */
  lemma DoubleClick(s: State, i: int)
    ensures i == s.localIndex ==> ClickItem(ClickItem(s, i), i).isChooseModel == s.isChooseModel
    ensures i != s.localIndex ==> ClickItem(ClickItem(s, i), i).isChooseModel == !s.isChooseModel
  {
  }

  /** From a fresh page, deleting before any list has arrived emits
      nothing; after a list arrives the first entry can be deleted. */
  lemma DeleteNeedsAnEntry(tuke: seq<Entry>, user: seq<Entry>)
    ensures Delete(Initial) == []
    ensures var s := Step(Initial, FilesList(tuke, user)).0;
            (Delete(s) != [] <==> |user| > 0)
            && (|user| > 0 ==> Delete(s) == [DeleteFile(user[0].id, user[0].folder)])
  {
  }
}
